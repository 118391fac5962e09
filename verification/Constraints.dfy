/** Unique constraints and sequence numbers over the store's operations, and the exact condition
    under which each of the store's key promises fails. */
module Constraints {
  import opened Decimal
  import opened Options
  import opened Values
  import opened Select
  import opened Agreement
  import opened Store
  import opened StoreLaws
  import opened Ledger
  import opened History

  // ---- Unique constraints ----------------------------------------------------------------

  /** No two rows of a constrained table carry the same tuple, unless one of its texts is cut at a
      NUL. */
  ghost predicate UniqueIn(t: Name, rows: Table, text: Text) {
    UniqueColumns(t) != [] ==>
      forall x, y :: x in rows && y in rows && x.pk != y.pk && !Hidden(x.doc, UniqueColumns(t), text)
                     ==> !SameTuple(x.doc, y.doc, UniqueColumns(t))
  }

  ghost predicate UniqueOk(db: Db, text: Text) {
    forall n :: UniqueIn(n, RowsOf(db, n), text)
  }

  lemma SameHidden(a: Doc, b: Doc, columns: seq<string>, text: Text)
    requires SameTuple(a, b, columns)
    ensures Hidden(a, columns, text) <==> Hidden(b, columns, text)
    ensures TooBig(a, columns) <==> TooBig(b, columns)
  {
    assert forall i :: 0 <= i < |columns| ==> PyEq(Get(a, columns[i]), Get(b, columns[i]));
  }

  /** An update of a constrained table that leaves the key column alone. */
  predicate KeepsKey(op: Op) {
    op.Update? && UniqueColumns(op.t) != [] ==> PkField(op.t) !in op.payload
  }

  lemma PutUnique(t: Name, rows: Table, pk: string, row: Doc, text: Text)
    requires UniqueIn(t, rows, text)
    requires UniqueColumns(t) != [] && !Hidden(row, UniqueColumns(t), text) ==>
      forall r :: r in rows && r.pk != pk ==> !SameTuple(r.doc, row, UniqueColumns(t))
    ensures UniqueIn(t, Put(rows, pk, row), text)
  {
    WithoutMembers(rows, pk);
    forall r | r in rows && SameTuple(r.doc, row, UniqueColumns(t))
      ensures Hidden(r.doc, UniqueColumns(t), text) <==> Hidden(row, UniqueColumns(t), text)
      ensures SameTuple(row, r.doc, UniqueColumns(t))
    {
      SameHidden(r.doc, row, UniqueColumns(t), text);
    }
    forall r | r in rows && SameTuple(row, r.doc, UniqueColumns(t))
      ensures SameTuple(r.doc, row, UniqueColumns(t))
    {
    }
  }

  /** A check that passed covers every row stored under another key. */
  lemma CheckCovers(t: Name, rows: Table, row: Doc, except: Option<string>, text: Text)
    requires TableOk(rows, t, text) && UniqueColumns(t) != [] && UniqueRefusal(t, rows, row, except, text).None?
    requires !Hidden(row, UniqueColumns(t), text)
    ensures forall r :: r in rows && (except.Some? ==> r.pk != except.value)
                        ==> !SameTuple(r.doc, row, UniqueColumns(t))
  {
    TakenExact(rows, PkField(t), UniqueColumns(t), row, except, text);
    forall r | r in rows && (except.Some? ==> r.pk != except.value)
      ensures !SameTuple(r.doc, row, UniqueColumns(t))
    {
      assert Keyed(t, r.pk, r.doc, text);
      assert !Blocks(r.doc, PkField(t), UniqueColumns(t), row, except, text);
    }
  }

  lemma ChangedUnique(db: Db, db': Db, text: Text)
    requires UniqueOk(db, text)
    requires forall n :: UniqueColumns(n) != [] && RowsOf(db', n) != RowsOf(db, n) ==> UniqueIn(n, RowsOf(db', n), text)
    ensures UniqueOk(db', text)
  {
    forall n ensures UniqueIn(n, RowsOf(db', n), text) {
      assert UniqueIn(n, RowsOf(db, n), text);
    }
  }

  lemma WrittenUnique(p: Progress, t: Name, row: Doc, except: Option<string>, env: Env)
    requires DbOk(p.db, env.text) && UniqueOk(p.db, env.text) && PkField(t) in row
    requires UniqueColumns(t) != [] ==>
      UniqueRefusal(t, RowsOf(p.db, t), row, except, env.text).None?
      && (except.Some? ==> except.value == KeyText(t, row, env.text))
    ensures UniqueOk(Written(p, t, row, env).db, env.text)
  {
    if UniqueColumns(t) != [] {
      WrittenCovered(RowsOf(p.db, t), t, row, except, p.db, env.text);
    }
    WrittenElsewhere(p, t, row, env);
    ChangedUnique(p.db, Written(p, t, row, env).db, env.text);
  }

  lemma WrittenElsewhere(p: Progress, t: Name, row: Doc, env: Env)
    requires PkField(t) in row
    ensures var db' := Written(p, t, row, env).db;
      forall n :: UniqueColumns(n) != [] ==>
        RowsOf(db', n) == if n == t then Put(RowsOf(p.db, t), KeyText(t, row, env.text), row) else RowsOf(p.db, n)
  {
  }

  lemma WrittenCovered(rows: Table, t: Name, row: Doc, except: Option<string>, db: Db, text: Text)
    requires rows == RowsOf(db, t) && DbOk(db, text) && UniqueOk(db, text) && UniqueColumns(t) != []
    requires UniqueRefusal(t, rows, row, except, text).None?
    requires except.Some? ==> except.value == KeyText(t, row, text)
    ensures UniqueIn(t, Put(rows, KeyText(t, row, text), row), text)
  {
    assert TableOk(rows, t, text) && UniqueIn(t, rows, text);
    if !Hidden(row, UniqueColumns(t), text) {
      CheckCovers(t, rows, row, except, text);
    }
    PutUnique(t, rows, KeyText(t, row, text), row, text);
  }

  lemma UpdateRowUnique(p: Progress, r: Row, op: Op, env: Env)
    requires DbOk(p.db, env.text) && UniqueOk(p.db, env.text) && op.Update? && KeepsKey(op)
    requires PkField(op.t) in r.doc
    ensures UniqueOk(UpdateRow(p, op.t, r, op, env).db, env.text)
  {
    var candidate := r.doc + op.payload;
    var self := KeyText(op.t, r.doc, env.text);
    if p.failure.None? && UniqueRefusal(op.t, RowsOf(p.db, op.t), candidate, Some(self), env.text).None? {
      WrittenUnique(p, op.t, Completed(op.t, candidate, env), Some(self), env);
    }
  }

  lemma {:induction false} UpdateUnique(db: Db, found: Table, op: Op, env: Env)
    requires Inv(db, env.text) && Fresh(env, db, 1) && op.Update? && !AppendOnly(op.t) && KeepsKey(op)
    requires UniqueOk(db, env.text) && forall r :: r in found ==> PkField(op.t) in r.doc
    ensures UniqueOk(UpdateRows(Begin(db), found, op, env).db, env.text)
  {
    if found != [] {
      var front := found[..|found| - 1];
      UpdateUnique(db, front, op, env);
      UpdateKeeps(db, front, op, env);
      UpdateRowUnique(UpdateRows(Begin(db), front, op, env), found[|found| - 1], op, env);
    }
  }

  lemma DropUnique(p: Progress, t: Name, r: Row, env: Env)
    requires UniqueOk(p.db, env.text)
    ensures UniqueOk(DeleteRow(p, t, r, env).db, env.text)
  {
    WithoutMembers(RowsOf(p.db, t), KeyText(t, r.doc, env.text));
    var db' := DeleteRow(p, t, r, env).db;
    forall n ensures UniqueIn(n, RowsOf(db', n), env.text) {
      assert UniqueIn(n, RowsOf(p.db, n), env.text) && UniqueIn(t, RowsOf(p.db, t), env.text);
      if n == t && t.AuditOutbox? {
        assert UniqueColumns(n) == [];
      }
    }
  }

  lemma {:induction false} DeleteUnique(p: Progress, removed: Table, t: Name, env: Env)
    requires UniqueOk(p.db, env.text)
    ensures UniqueOk(DeleteRows(p, removed, t, env).db, env.text)
  {
    if removed != [] {
      DeleteUnique(p, removed[..|removed| - 1], t, env);
      DropUnique(DeleteRows(p, removed[..|removed| - 1], t, env), t, removed[|removed| - 1], env);
    }
  }

  lemma CheckedUnique(db: Db, t: Name, row: Doc, except: Option<string>, env: Env)
    requires DbOk(db, env.text) && UniqueOk(db, env.text)
    requires except.Some? ==> except.value == KeyText(t, row, env.text)
    ensures UniqueRefusal(t, RowsOf(db, t), row, except, env.text).None? ==>
      UniqueOk(Written(Begin(db), t, row, env).db, env.text)
  {
    if PkField(t) in row && UniqueRefusal(t, RowsOf(db, t), row, except, env.text).None? {
      WrittenUnique(Begin(db), t, row, except, env);
    }
  }

  lemma InsertUnique(db: Db, t: Name, payload: Doc, env: Env)
    requires DbOk(db, env.text) && UniqueOk(db, env.text)
    ensures UniqueOk(InsertRow(db, t, payload, env).db, env.text)
  {
    var row := ApplyDefaults(db, t, payload, env, 0);
    InsertCases(db, t, payload, env);
    CheckedUnique(db, t, row, None, env);
  }

  lemma UpsertUnique(db: Db, t: Name, payload: Doc, env: Env)
    requires DbOk(db, env.text) && UniqueOk(db, env.text)
    ensures UniqueOk(UpsertRow(db, t, payload, env).db, env.text)
  {
    var row := UpsertDoc(db, t, payload, env);
    UpsertCases(db, t, payload, env);
    CheckedUnique(db, t, row, Some(KeyText(t, row, env.text)), env);
  }

  /** Every operation, whole or cut short, keeps every unique constraint, as long as updates of
      constrained tables do not touch the key column. */
  lemma ApplyUnique(db: Db, op: Op, env: Env)
    requires Inv(db, env.text) && Fresh(env, db, 1) && Honest(op, env.text) && KeepsKey(op)
    requires UniqueOk(db, env.text)
    ensures UniqueOk(Apply(db, op, env).db, env.text)
  {
    var t := op.t;
    assert TableOk(RowsOf(db, t), t, env.text);
    if !AppendOnly(t) || op.Insert? {
      match op
      case Insert(_, payload) => InsertUnique(db, t, payload, env);
      case Upsert(_, payload) => UpsertUnique(db, t, payload, env);
      case Update(_, filters, _) =>
        var found := Find(RowsOf(db, t), filters, env.text);
        if found.Rows? {
          FoundDistinct(RowsOf(db, t), filters, env.text);
          forall r | r in found.rows ensures PkField(t) in r.doc {
            assert Keyed(t, r.pk, r.doc, env.text);
          }
          UpdateUnique(db, found.rows, op, env);
        }
      case Delete(_, filters) =>
        var found := Find(RowsOf(db, t), filters, env.text);
        if found.Rows? && PyFilter(found.rows, filters).Rows? {
          DeleteUnique(Begin(db), PyFilter(found.rows, filters).rows, t, env);
        }
    }
  }

  /** When an update of a stored row is accepted, the constraint still holds exactly when the row
      stays under its key or its tuple changes, or is one the constraint does not see: a row moved to
      a new key leaves its old self behind. */
  lemma RekeyedExactly(p: Progress, r: Row, op: Op, env: Env)
    requires DbOk(p.db, env.text) && UniqueOk(p.db, env.text) && p.failure.None?
    requires op.Update? && UniqueColumns(op.t) != [] && r in RowsOf(p.db, op.t)
    requires PyMatches(r.doc, op.filters).Hit? && UpdateRow(p, op.t, r, op, env).failure.None?
    ensures
      var candidate := r.doc + op.payload;
      UniqueIn(op.t, RowsOf(UpdateRow(p, op.t, r, op, env).db, op.t), env.text)
      <==> KeyText(op.t, candidate, env.text) == r.pk || !SameTuple(r.doc, candidate, UniqueColumns(op.t))
           || Hidden(candidate, UniqueColumns(op.t), env.text)
  {
    var t, rows, candidate := op.t, RowsOf(p.db, op.t), r.doc + op.payload;
    var pk := KeyText(t, candidate, env.text);
    assert TableOk(rows, t, env.text) && UniqueIn(t, rows, env.text);
    assert Keyed(t, r.pk, r.doc, env.text);
    if !Hidden(candidate, UniqueColumns(t), env.text) {
      CheckCovers(t, rows, candidate, Some(r.pk), env.text);
    }
    var after := Put(rows, pk, candidate);
    WithoutMembers(rows, pk);
    assert RowsOf(UpdateRow(p, t, r, op, env).db, t) == after;
    if pk == r.pk || !SameTuple(r.doc, candidate, UniqueColumns(t)) || Hidden(candidate, UniqueColumns(t), env.text) {
      PutUnique(t, rows, pk, candidate, env.text);
    } else {
      SameHidden(r.doc, candidate, UniqueColumns(t), env.text);
      var moved := Row(NextRowid(rows), pk, candidate);
      assert r in after && moved in after && r.pk != moved.pk;
    }
  }

  lemma LoneRowFree(r: Row, candidate: Doc, text: Text)
    requires Get(r.doc, "id") == Str(r.pk) && !TooBig(candidate, UniqueColumns(ScoreGrants))
    ensures UniqueRefusal(ScoreGrants, [r], candidate, Some(r.pk), text).None?
  {
    TakenExact([r], "id", UniqueColumns(ScoreGrants), candidate, Some(r.pk), text);
  }

  lemma LoneUpdate(db: Db, r: Row, op: Op, env: Env)
    requires RowsOf(db, op.t) == [r] && op.Update? && op.filters == [] && !AppendOnly(op.t)
    ensures Apply(db, op, env) == UpdateRow(Begin(db), op.t, r, op, env)
  {
    NoFilters([r], env.text);
    assert Find([r], [], env.text) == Rows([r]);
    assert [r][..0] == [] && UpdateRows(Begin(db), [], op, env) == Begin(db);
  }

  lemma SameGrant(doc: Doc, id: string)
    ensures SameTuple(doc, doc["id" := Str(id)], UniqueColumns(ScoreGrants))
  {
    forall i | 0 <= i < 3
      ensures PyEq(Get(doc, UniqueColumns(ScoreGrants)[i]), Get(doc["id" := Str(id)], UniqueColumns(ScoreGrants)[i]))
    {
      assert UniqueColumns(ScoreGrants)[i] != "id";
    }
  }

  lemma RekeyWrites(db: Db, r: Row, id: string, candidate: Doc, env: Env)
    requires RowsOf(db, ScoreGrants) == [r] && id != r.pk && "id" in candidate && candidate["id"] == Str(id)
    ensures var p := Written(Begin(db), ScoreGrants, candidate, env);
      p.failure.None? && RowsOf(p.db, ScoreGrants) == [r, Row(r.rowid + 1, id, candidate)]
  {
    WithoutNothing([r], id);
    assert [r] + [Row(r.rowid + 1, id, candidate)] == [r, Row(r.rowid + 1, id, candidate)];
  }

  /** Giving the only grant another key is accepted and leaves two grants for one document. */
  lemma RekeyLeavesBoth(db: Db, r: Row, id: string, env: Env)
    requires RowsOf(db, ScoreGrants) == [r] && Get(r.doc, "id") == Str(r.pk) && id != r.pk
    requires !TooBig(r.doc, UniqueColumns(ScoreGrants))
    ensures
      var p := Apply(db, Update(ScoreGrants, [], map["id" := Str(id)]), env);
      var moved := Row(r.rowid + 1, id, r.doc["id" := Str(id)]);
      p.failure.None? && RowsOf(p.db, ScoreGrants) == [r, moved]
      && SameTuple(r.doc, moved.doc, UniqueColumns(ScoreGrants))
  {
    var op := Update(ScoreGrants, [], map["id" := Str(id)]);
    var candidate := r.doc["id" := Str(id)];
    assert r.doc + op.payload == candidate;
    LoneUpdate(db, r, op, env);
    SameGrant(r.doc, id);
    SameHidden(r.doc, candidate, UniqueColumns(ScoreGrants), env.text);
    RekeyStep(db, r, op, candidate, env);
    RekeyWrites(db, r, id, candidate, env);
  }

  lemma RekeyStep(db: Db, r: Row, op: Op, candidate: Doc, env: Env)
    requires RowsOf(db, ScoreGrants) == [r] && Get(r.doc, "id") == Str(r.pk)
    requires op.Update? && op.filters == [] && candidate == r.doc + op.payload
    requires !TooBig(candidate, UniqueColumns(ScoreGrants))
    ensures UpdateRow(Begin(db), ScoreGrants, r, op, env) == Written(Begin(db), ScoreGrants, candidate, env)
  {
    LoneRowFree(r, candidate, env.text);
  }

  lemma UniqueUntilShared(r: Row, other: Row, text: Text)
    requires r.pk != other.pk && SameTuple(r.doc, other.doc, UniqueColumns(ScoreGrants))
    requires !Hidden(r.doc, UniqueColumns(ScoreGrants), text)
    ensures UniqueIn(ScoreGrants, [r], text) && !UniqueIn(ScoreGrants, [r, other], text)
  {
    assert [r, other][0] in [r, other] && [r, other][1] in [r, other];
  }

  /** A store with one grant in which an accepted update makes two that share organisation, run and
      digest. */
  lemma TwoGrantsForOneDigest(a: string, b: string, env: Env)
    requires a == "a" && b == "b"
    ensures
      var r := Row(1, a, map["id" := Str(a), "org_id" := Str("o"), "run_id" := Str("r"), "digest" := Str("d")]);
      var db: Db := map[ScoreGrants := [r]];
      var p := Apply(db, Update(ScoreGrants, [], map["id" := Str(b)]), env);
      UniqueIn(ScoreGrants, RowsOf(db, ScoreGrants), env.text) && p.failure.None?
      && !UniqueIn(ScoreGrants, RowsOf(p.db, ScoreGrants), env.text)
  {
    var doc: Doc := map["id" := Str(a), "org_id" := Str("o"), "run_id" := Str("r"), "digest" := Str("d")];
    var r := Row(1, a, doc);
    assert doc["id"] == Str(a) && a[0] != b[0];
    RekeyLeavesBoth(map[ScoreGrants := [r]], r, b, env);
    UniqueUntilShared(r, Row(2, b, doc["id" := Str(b)]), env.text);
  }

  // ---- History ---------------------------------------------------------------------------

  /** An accepted insert into an append-only table keeps every stored row exactly when none is
      filed under the new key's text; equal values are refused, so only unlike ones collide. */
  lemma InsertAppendsExactly(db: Db, t: Name, payload: Doc, env: Env)
    requires AppendOnly(t) && InsertRow(db, t, payload, env).failure.None?
    ensures
      var row := ApplyDefaults(db, t, payload, env, 0);
      RowsOf(db, t) <= RowsOf(InsertRow(db, t, payload, env).db, t)
      <==> forall r :: r in RowsOf(db, t) ==> r.pk != KeyText(t, row, env.text)
  {
    var row := ApplyDefaults(db, t, payload, env, 0);
    AcceptedInsert(db, t, payload, row, env);
    AppendsExactly(RowsOf(db, t), KeyText(t, row, env.text), row);
  }

  lemma AcceptedInsert(db: Db, t: Name, payload: Doc, row: Doc, env: Env)
    requires !t.AgentJobs? && row == ApplyDefaults(db, t, payload, env, 0)
    requires InsertRow(db, t, payload, env).failure.None?
    ensures RowsOf(InsertRow(db, t, payload, env).db, t) == Put(RowsOf(db, t), KeyText(t, row, env.text), row)
  {
    InsertCases(db, t, payload, env);
  }

  /** The key 1 is not the key "1", so it is accepted, and it erases the audit event filed under "1". */
  lemma NumberKeyErasesEvent(env: Env)
    ensures
      var stored := Row(1, "1", map["id" := Str("1"), "event" := Str("approved")]);
      var p := InsertRow(map[AgentJobEvents := [stored]], AgentJobEvents, map["id" := Num(1)], env);
      p.failure.None? && stored !in RowsOf(p.db, AgentJobEvents)
  {
    var stored := Row(1, "1", map["id" := Str("1"), "event" := Str("approved")]);
    var rows := [stored];
    var row := ApplyDefaults(map[AgentJobEvents := rows], AgentJobEvents, map["id" := Num(1)], env, 0);
    assert row["id"] == Num(1) && IntText(1) == "1";
    TakenExact(rows, "id", ["id"], row, None, env.text);
    forall r | r in rows ensures !SameTuple(r.doc, row, ["id"]) {
      assert !PyEq(Get(r.doc, ["id"][0]), Get(row, ["id"][0]));
    }
    WithoutMembers(rows, "1");
  }

  /** Where json_extract ends texts at a NUL, a second event under the same key is accepted and erases
      the first. */
  lemma NulKeyErasesEvent(key: string, env: Env)
    requires !ReadsBack(key, env.text) && key != ""
    ensures
      var stored := Row(1, key, map["id" := Str(key), "event" := Str("approved")]);
      var p := InsertRow(map[AgentJobEvents := [stored]], AgentJobEvents, map["id" := Str(key)], env);
      p.failure.None? && stored !in RowsOf(p.db, AgentJobEvents)
  {
    var stored := Row(1, key, map["id" := Str(key), "event" := Str("approved")]);
    var db: Db := map[AgentJobEvents := [stored]];
    var row := ApplyDefaults(db, AgentJobEvents, map["id" := Str(key)], env, 0);
    assert row["id"] == Str(key);
    HiddenKeyAccepted([stored], row, "id", key, env.text);
    AcceptedInsert(db, AgentJobEvents, map["id" := Str(key)], row, env);
    WithoutMembers([stored], key);
  }

  lemma HiddenKeyAccepted(rows: Table, row: Doc, id: string, key: string, text: Text)
    requires id == "id" && id in row && row[id] == Str(key) && !ReadsBack(key, text)
    ensures KeyRefusal(AgentJobEvents, rows, row, text).None?
  {
    TakenExact(rows, id, [id], row, None, text);
    assert Get(row, [id][0]) == Str(key);
    assert IsIdentifier(id);
  }

  // ---- Sequence numbers ------------------------------------------------------------------

  /** Event sequence numbers are exactly 1..n, in order. */
  ghost predicate Numbered(rows: Table) {
    forall i :: 0 <= i < |rows| ==> Get(rows[i].doc, "seq") == Num(i + 1)
  }

  /** Events leave their sequence number to the store. */
  predicate DefaultsSeq(op: Op) {
    op.Insert? && op.t.ScoreEvents? ==> !Truthy(Get(op.payload, "seq"))
  }

  /** No stored event has the number. */
  predicate Unused(rows: Table, number: int) {
    forall r :: r in rows ==> !PyEq(Get(r.doc, "seq"), Num(number))
  }

  /** Why an event of that number is refused, if it is. */
  function NumberRefusal(rows: Table, number: int): Option<Failure> {
    if !Fits64(number) then Some(Oversized) else if Unused(rows, number) then None else Some(DuplicateKey)
  }

  /** The number the store gives next, one more than the count of events, is refused. */
  predicate Stuck(rows: Table) {
    NumberRefusal(rows, |rows| + 1).Some?
  }

  lemma DefaultSeq(db: Db, payload: Doc, env: Env)
    requires !Truthy(Get(payload, "seq"))
    ensures var row := ApplyDefaults(db, ScoreEvents, payload, env, 0);
      "seq" in row && row["seq"] == Num(|RowsOf(db, ScoreEvents)| + 1)
  {
  }

  lemma SeqRefusal(rows: Table, row: Doc, number: int, text: Text)
    requires "seq" in row && row["seq"] == Num(number)
    ensures KeyRefusal(ScoreEvents, rows, row, text) == NumberRefusal(rows, number)
  {
    assert ["seq"][0] == "seq";
    if Fits64(number) {
      TakenExact(rows, "seq", ["seq"], row, None, text);
      assert forall r: Row :: Blocks(r.doc, "seq", ["seq"], row, None, text) <==>
        PyEq(Get(r.doc, ["seq"][0]), Num(number));
    }
  }

  /** An event inserted without a number is accepted exactly when no stored event has the number one
      above their count, a number SQLite can hold; a refused insert changes nothing. */
  lemma InsertNumbers(db: Db, payload: Doc, env: Env)
    requires !Truthy(Get(payload, "seq"))
    ensures var p := InsertRow(db, ScoreEvents, payload, env);
      p.failure == NumberRefusal(RowsOf(db, ScoreEvents), |RowsOf(db, ScoreEvents)| + 1)
      && (p.failure.Some? ==> p.db == db)
  {
    var row := ApplyDefaults(db, ScoreEvents, payload, env, 0);
    DefaultSeq(db, payload, env);
    SeqRefusal(RowsOf(db, ScoreEvents), row, |RowsOf(db, ScoreEvents)| + 1, env.text);
  }

  /** The accepted event goes behind the stored ones, with that number. */
  lemma InsertedNumber(db: Db, payload: Doc, env: Env) returns (r: Row)
    requires Inv(db, env.text) && !Truthy(Get(payload, "seq")) && !Stuck(RowsOf(db, ScoreEvents))
    ensures RowsOf(InsertRow(db, ScoreEvents, payload, env).db, ScoreEvents) == RowsOf(db, ScoreEvents) + [r]
    ensures Get(r.doc, "seq") == Num(|RowsOf(db, ScoreEvents)| + 1)
  {
    var rows, row := RowsOf(db, ScoreEvents), ApplyDefaults(db, ScoreEvents, payload, env, 0);
    var pk := KeyText(ScoreEvents, row, env.text);
    DefaultSeq(db, payload, env);
    InsertNumbers(db, payload, env);
    assert TableOk(rows, ScoreEvents, env.text);
    WrittenBehind(rows, ScoreEvents, pk, row, env.text);
    AcceptedInsert(db, ScoreEvents, payload, row, env);
    r := Row(NextRowid(rows), pk, row);
  }

  lemma NumberedAppend(rows: Table, r: Row)
    requires Numbered(rows) && Get(r.doc, "seq") == Num(|rows| + 1)
    ensures Numbered(rows + [r])
  {
  }

  lemma ApplyNumbers(db: Db, op: Op, env: Env)
    requires Inv(db, env.text) && Fresh(env, db, 1) && Honest(op, env.text) && DefaultsSeq(op)
    requires Numbered(RowsOf(db, ScoreEvents))
    ensures Numbered(RowsOf(Apply(db, op, env).db, ScoreEvents))
  {
    if !op.t.ScoreEvents? {
      ApplyKeeps(db, op, env);
    } else if op.Insert? {
      InsertNumbers(db, op.payload, env);
      if !Stuck(RowsOf(db, ScoreEvents)) {
        var r := InsertedNumber(db, op.payload, env);
        NumberedAppend(RowsOf(db, ScoreEvents), r);
      }
    }
  }

  /** Once the next number is used, no operation that leaves numbers to the store adds an event, so
      the number stays used for good. */
  lemma ApplyStuck(db: Db, op: Op, env: Env)
    requires Inv(db, env.text) && Fresh(env, db, 1) && Honest(op, env.text) && DefaultsSeq(op)
    requires Stuck(RowsOf(db, ScoreEvents))
    ensures RowsOf(Apply(db, op, env).db, ScoreEvents) == RowsOf(db, ScoreEvents)
  {
    if !op.t.ScoreEvents? {
      ApplyKeeps(db, op, env);
    } else if op.Insert? {
      InsertNumbers(db, op.payload, env);
    }
  }

  lemma FirstNumbered(payload: Doc, number: int, env: Env)
    requires Get(payload, "seq") == Num(number) && number > 0 && Fits64(number)
    ensures var p := InsertRow(map[], ScoreEvents, payload, env);
      p.failure.None? && |RowsOf(p.db, ScoreEvents)| == 1 && Get(RowsOf(p.db, ScoreEvents)[0].doc, "seq") == Num(number)
  {
    var row := ApplyDefaults(map[], ScoreEvents, payload, env, 0);
    assert row["seq"] == Num(number);
    SeqRefusal([], row, number, env.text);
    AcceptedInsert(map[], ScoreEvents, payload, row, env);
  }

  /** One event that its caller numbered 2 is accepted by an empty store, and every event inserted
      without a number is refused from then on. */
  lemma NumberTwoSticks(payload: Doc, env: Env, later: Doc, next: Env)
    requires Get(payload, "seq") == Num(2) && !Truthy(Get(later, "seq"))
    ensures var p := InsertRow(map[], ScoreEvents, payload, env);
      p.failure.None?
      && InsertRow(p.db, ScoreEvents, later, next).failure == Some(DuplicateKey)
      && InsertRow(p.db, ScoreEvents, later, next).db == p.db
  {
    FirstNumbered(payload, 2, env);
    var db := InsertRow(map[], ScoreEvents, payload, env).db;
    assert RowsOf(db, ScoreEvents)[0] in RowsOf(db, ScoreEvents);
    InsertNumbers(db, later, next);
  }

  /** Events inserted one after another without a number are all accepted. */
  predicate AllAccepted(db: Db, events: seq<(Doc, Env)>)
    decreases |events|
  {
    events == []
    || (var p := InsertRow(db, ScoreEvents, events[0].0, events[0].1);
        p.failure.None? && AllAccepted(p.db, events[1..]))
  }

  /** No stored event has one of the next `count` numbers, which are numbers SQLite can hold. */
  ghost predicate Ahead(rows: Table, count: nat) {
    forall number :: |rows| < number <= |rows| + count ==> NumberRefusal(rows, number).None?
  }

  lemma AheadStep(rows: Table, r: Row, count: nat)
    requires Get(r.doc, "seq") == Num(|rows| + 1)
    ensures Ahead(rows, count + 1) <==> !Stuck(rows) && Ahead(rows + [r], count)
  {
    forall number | |rows| + 1 < number ensures NumberRefusal(rows + [r], number) == NumberRefusal(rows, number) {
      assert forall x :: x in rows + [r] <==> x in rows || x == r;
    }
  }

  lemma DefaultKeeps(db: Db, payload: Doc, env: Env)
    requires Inv(db, env.text) && Fresh(env, db, 1) && !Truthy(Get(payload, "seq"))
    ensures var p := InsertRow(db, ScoreEvents, payload, env);
      Inv(p.db, env.text) && RowsOf(p.db, AuditOutbox) == RowsOf(db, AuditOutbox)
  {
    InsertKeeps(db, ScoreEvents, payload, env);
    InsertCases(db, ScoreEvents, payload, env);
    OutboxUntouched(Begin(db), ScoreEvents, ApplyDefaults(db, ScoreEvents, payload, env, 0), env);
  }

  lemma OutboxUntouched(p: Progress, t: Name, row: Doc, env: Env)
    requires !t.AgentJobs? && !t.AuditOutbox?
    ensures RowsOf(Written(p, t, row, env).db, AuditOutbox) == RowsOf(p.db, AuditOutbox)
  {
  }

  /** What a default insert leaves for the next one. */
  lemma NextDefault(db: Db, payload: Doc, env: Env, text: Text, count: nat)
    requires Inv(db, text) && env.text == text && Fresh(env, db, 1) && !Truthy(Get(payload, "seq"))
    requires !Stuck(RowsOf(db, ScoreEvents))
    ensures var p := InsertRow(db, ScoreEvents, payload, env);
      Inv(p.db, text) && RowsOf(p.db, AuditOutbox) == RowsOf(db, AuditOutbox) && p.failure.None?
      && (Ahead(RowsOf(db, ScoreEvents), count + 1) <==> Ahead(RowsOf(p.db, ScoreEvents), count))
  {
    InsertNumbers(db, payload, env);
    DefaultKeeps(db, payload, env);
    var r := InsertedNumber(db, payload, env);
    AheadStep(RowsOf(db, ScoreEvents), r, count);
  }

  /** That happens exactly when no stored event has one of the next |events| numbers. */
  lemma {:induction false} AllAcceptedExactly(db: Db, events: seq<(Doc, Env)>, text: Text)
    requires Inv(db, text)
    requires forall e :: e in events ==> !Truthy(Get(e.0, "seq")) && e.1.text == text && Fresh(e.1, db, 1)
    ensures AllAccepted(db, events) <==> Ahead(RowsOf(db, ScoreEvents), |events|)
    decreases |events|
  {
    if events != [] {
      var payload, env, rest := events[0].0, events[0].1, events[1..];
      assert events[0] in events;
      InsertNumbers(db, payload, env);
      if !Stuck(RowsOf(db, ScoreEvents)) {
        NextDefault(db, payload, env, text, |rest|);
        assert forall e :: e in rest ==> e in events;
        AllAcceptedExactly(InsertRow(db, ScoreEvents, payload, env).db, rest, text);
      }
    }
  }

  // ---- Reading events in order -------------------------------------------------------------

  lemma SingleDigits(i: nat, j: nat)
    requires 1 <= i < j <= 9
    ensures StrLt(IntText(i), IntText(j))
  {
  }

  lemma SeqKey(rows: Table, i: nat, text: Text)
    requires Numbered(rows) && i < |rows| && i < 10
    ensures KeyOf(BySql("seq", text), rows[i]) == IntText(i + 1)
  {
  }

  lemma UpToNineOrdered(rows: Table, text: Text)
    requires RowidOrdered(rows) && Numbered(rows) && |rows| <= 9
    ensures Ordered(rows, BySql("seq", text), false)
  {
    forall i, j | 0 <= i < j < |rows| ensures RowBefore(rows[i], rows[j], BySql("seq", text), false) {
      SeqKey(rows, i, text);
      SeqKey(rows, j, text);
      SingleDigits(i + 1, j + 1);
    }
  }

  lemma TenthBeforeSecond(rows: Table, text: Text)
    requires Numbered(rows) && |rows| >= 10
    ensures !Ordered(rows, BySql("seq", text), false)
  {
    SeqKey(rows, 1, text);
    SeqKey(rows, 9, text);
    TenBeforeTwo("10", "2");
    assert !RowBefore(rows[1], rows[9], BySql("seq", text), false);
  }

  /** Ordering by the number orders by its text: it leaves events numbered 1..n as they are exactly up
      to nine of them, because "10" comes before "2". */
  lemma OrderBySeqExactly(rows: Table, text: Text, out: Selected)
    requires RowidOrdered(rows) && Numbered(rows) && SelectAnswer(rows, OrderBy("seq", false), text, out)
    ensures out == Rows(rows) <==> |rows| <= 9
  {
    SeqIsColumn("seq");
    var ordered := OrderAnswer(rows, "seq", false, text, out);
    if |rows| <= 9 {
      UpToNineOrdered(rows, text);
      OrderingUnique(ordered, rows, BySql("seq", text), false);
    } else {
      TenthBeforeSecond(rows, text);
    }
  }

  /** Events that SQLite filters and orders by their number, such as those of one task. */
  function FilteredBySeq(filters: seq<Filter>): Query {
    Query(filters, Some(Order("seq", false)), None, 0)
  }

  /** The numbers of the events, as decimal text, rise from row to row. */
  ghost predicate SeqTextsRise(rows: Table) {
    forall i, j :: 0 <= i < j < |rows| ==> StrLt(SeqText(rows[i]), SeqText(rows[j]))
  }

  function SeqText(r: Row): string {
    var number := Get(r.doc, "seq");
    if number.Num? then IntText(number.n) else ""
  }

  lemma SeqTextIsKey(rows: Table, r: Row, text: Text)
    requires Numbered(rows) && Fits64(|rows|) && r in rows
    ensures KeyOf(BySql("seq", text), r) == SeqText(r)
  {
    var i :| 0 <= i < |rows| && rows[i] == r;
    assert Get(r.doc, "seq") == Num(i + 1);
  }

  lemma SeqTextDistinct(rows: Table, x: Row, y: Row)
    requires Numbered(rows) && x in rows && y in rows && SeqText(x) == SeqText(y)
    ensures x == y
  {
    var i :| 0 <= i < |rows| && rows[i] == x;
    var j :| 0 <= j < |rows| && rows[j] == y;
    IntTextInjective(i + 1, j + 1);
  }

  lemma RiseIsOrdered(rows: Table, kept: Table, text: Text)
    requires RowidOrdered(kept) && Numbered(rows) && Fits64(|rows|) && forall r :: r in kept ==> r in rows
    ensures Ordered(kept, BySql("seq", text), false) <==> SeqTextsRise(kept)
  {
    forall i, j | 0 <= i < j < |kept|
      ensures RowBefore(kept[i], kept[j], BySql("seq", text), false) <==> StrLt(SeqText(kept[i]), SeqText(kept[j]))
    {
      assert kept[i] in kept && kept[j] in kept;
      SeqTextIsKey(rows, kept[i], text);
      SeqTextIsKey(rows, kept[j], text);
      if SeqText(kept[i]) == SeqText(kept[j]) {
        SeqTextDistinct(rows, kept[i], kept[j]);
      }
    }
  }

  /** Filtered events come back in the order they were stored in exactly when the texts of their
      numbers rise. */
  lemma FilteredBySeqExactly(rows: Table, filters: seq<Filter>, text: Text, out: Selected)
    requires RowidOrdered(rows) && Numbered(rows) && Fits64(|rows|)
    requires PushesDown(FilteredBySeq(filters)) && Bindable(FilteredBySeq(filters))
    requires SelectAnswer(rows, FilteredBySeq(filters), text, out)
    ensures out == Rows(SqlFilter(rows, filters, text)) <==> SeqTextsRise(SqlFilter(rows, filters, text))
  {
    var kept := SqlFilter(rows, filters, text);
    FilterKeeps(rows, filters, text);
    RiseIsOrdered(rows, kept, text);
    var ordered: Table :| IsOrdering(ordered, kept, BySql("seq", text), false)
                          && out.rows == SqlWindow(ordered, None, 0);
    if SeqTextsRise(kept) {
      OrderingUnique(ordered, kept, BySql("seq", text), false);
    }
  }

  lemma SeqIsColumn(column: string)
    requires column == "seq"
    ensures IsIdentifier(column)
  {
  }

  lemma TenBeforeTwo(ten: string, two: string)
    requires ten == "10" && two == "2"
    ensures IntText(10) == ten && IntText(2) == two && StrLt(ten, two) && !StrLt(two, ten) && ten != two
  {
    assert NatText(1) == "1";
  }
}
