/** What each write leaves in its table, row by row and column by column, and what it returns. */
module StoreEffects {
  import opened Options
  import opened Values
  import opened Select
  import opened Agreement
  import opened SelectLaws
  import opened Store
  import opened StoreLaws
  import opened Ledger
  import opened History

  /** The tables that only grow. */
  const HISTORY := {AgentJobEvents, AuditOutbox, AttemptReceipts, ScoreEvents, ScoreDecisions, AgentExchanges,
                    ExchangePromotions}

  // ---- One row filed ---------------------------------------------------------------------

  /** `after` is `before` with the row `n` filed at the end under its key, in place of the row that
      had the key, if one had it. */
  ghost predicate Filed(before: Table, after: Table, n: Row) {
    after != [] && after[|after| - 1] == n
    && (forall r :: r in after <==> r == n || (r in before && r.pk != n.pk))
    && (forall r :: r in before ==> r.rowid < n.rowid)
    && RowidOrdered(after)
  }

  lemma PutFiles(t: Table, pk: string, doc: Doc)
    requires RowidOrdered(t) && DistinctPks(t)
    ensures Filed(t, Put(t, pk, doc), Row(NextRowid(t), pk, doc))
  {
    WithoutMembers(t, pk);
    WithoutOrdered(t, pk);
    forall r | r in t ensures r.rowid < NextRowid(t) {
      var i :| 0 <= i < |t| && t[i] == r;
    }
    forall i | 0 <= i < |Without(t, pk)| ensures Without(t, pk)[i].rowid < NextRowid(t) {
      assert Without(t, pk)[i] in t;
    }
  }

  /** What a write that succeeds files and returns. */
  lemma WrittenFiles(db: Db, t: Name, row: Doc, env: Env)
    requires DbOk(db, env.text) && Written(Begin(db), t, row, env).failure.None?
    ensures var p := Written(Begin(db), t, row, env);
      PkField(t) in row && p.rows == [row] && RowsOf(p.db, t) != []
      && Filed(RowsOf(db, t), RowsOf(p.db, t), Row(NextRowid(RowsOf(db, t)), KeyText(t, row, env.text), row))
  {
    assert TableOk(RowsOf(db, t), t, env.text);
    PutFiles(RowsOf(db, t), KeyText(t, row, env.text), row);
    assert [] + [row] == [row];
  }

  // ---- Insert ----------------------------------------------------------------------------

  /** The document has the payload's columns, but for a key or a time stamp that says nothing. */
  ghost predicate HasPayload(doc: Doc, payload: Doc, t: Name) {
    forall c :: c in payload && (c == PkField(t) || c == StampField(t) ==> !SaysNothing(payload[c])) ==>
      c in doc && doc[c] == payload[c]
  }

  /** Where the payload says nothing, the key is a drawn uuid, the stamp is the clock's, and every other
      column of the table's defaults has its default. */
  ghost predicate HasDefaults(doc: Doc, payload: Doc, t: Name, env: Env) {
    ((PkField(t) == "id" || PkField(t) == "run_id") && SaysNothing(Get(payload, PkField(t))) ==>
       Get(doc, PkField(t)) == Str(env.uuid(0)))
    && (SaysNothing(Get(payload, StampField(t))) ==> Get(doc, StampField(t)) == Str(env.now))
    && ("org_id" !in payload ==> Get(doc, "org_id") == Str("default"))
    && forall c :: c in ColumnDefaults(t) && c !in payload && c != PkField(t) && c != StampField(t) ==>
         Get(doc, c) == ColumnDefaults(t)[c]
  }

  lemma DefaultedDoc(db: Db, t: Name, payload: Doc, env: Env)
    ensures var doc := ApplyDefaults(db, t, payload, env, 0);
      HasPayload(doc, payload, t) && HasDefaults(doc, payload, t, env)
  {
    var doc := ApplyDefaults(db, t, payload, env, 0);
    forall c | c in payload && (c == PkField(t) || c == StampField(t) ==> !SaysNothing(payload[c]))
      ensures c in doc && doc[c] == payload[c]
    {
      TruthySays(payload[c]);
      DefaultsRespectRow(db, t, payload, env, 0, c);
    }
    DefaultsFilled(db, t, payload, env);
  }

  lemma DefaultsFilled(db: Db, t: Name, payload: Doc, env: Env)
    ensures HasDefaults(ApplyDefaults(db, t, payload, env, 0), payload, t, env)
  {
    if (PkField(t) == "id" || PkField(t) == "run_id") && SaysNothing(Get(payload, PkField(t))) {
      KeyFilled(db, t, payload, env);
    }
    if SaysNothing(Get(payload, StampField(t))) {
      StampFilled(db, t, payload, env);
    }
    if "org_id" !in payload {
      OrgFilled(db, t, payload, env, "org_id");
    }
    forall c | c in ColumnDefaults(t) && c !in payload && c != PkField(t) && c != StampField(t)
      ensures Get(ApplyDefaults(db, t, payload, env, 0), c) == ColumnDefaults(t)[c]
    {
      ColumnFilled(db, t, payload, env, c);
    }
  }

  lemma OrgFilled(db: Db, t: Name, payload: Doc, env: Env, org: string)
    requires org == "org_id" && org !in payload
    ensures Get(ApplyDefaults(db, t, payload, env, 0), org) == Str("default")
  {
    OrgDefault(t, org);
    OrgIsOther(t, org);
    if PkField(t) != org && StampField(t) != org {
      ColumnFilled(db, t, payload, env, org);
    }
  }

  lemma OrgDefault(t: Name, org: string)
    requires org == "org_id"
    ensures org in ColumnDefaults(t) && ColumnDefaults(t)[org] == Str("default")
  {
  }

  lemma OrgIsOther(t: Name, org: string)
    requires org == "org_id"
    ensures PkField(t) != org && StampField(t) != org
  {
  }

  lemma KeyFilled(db: Db, t: Name, payload: Doc, env: Env)
    requires (PkField(t) == "id" || PkField(t) == "run_id") && SaysNothing(Get(payload, PkField(t)))
    ensures Get(ApplyDefaults(db, t, payload, env, 0), PkField(t)) == Str(env.uuid(0))
  {
  }

  lemma StampFilled(db: Db, t: Name, payload: Doc, env: Env)
    requires SaysNothing(Get(payload, StampField(t)))
    ensures Get(ApplyDefaults(db, t, payload, env, 0), StampField(t)) == Str(env.now)
  {
    KeyIsOther(t);
  }

  lemma KeyIsOther(t: Name)
    ensures PkField(t) != StampField(t)
  {
    assert |StampField(t)| == if t.ScoreEvents? then 2 else 10;
  }

  lemma ColumnFilled(db: Db, t: Name, payload: Doc, env: Env, c: string)
    requires c in ColumnDefaults(t) && c !in payload && c != PkField(t) && c != StampField(t)
    ensures Get(ApplyDefaults(db, t, payload, env, 0), c) == ColumnDefaults(t)[c]
  {
  }

  /** A successful insert files one row, under the text of its own key, that has the payload's columns
      and the defaults, leaves every other row, and returns what it filed. */
  lemma InsertFiles(db: Db, t: Name, payload: Doc, env: Env) returns (n: Row)
    requires DbOk(db, env.text) && Apply(db, Insert(t, payload), env).failure.None?
    ensures var p := Apply(db, Insert(t, payload), env);
      Filed(RowsOf(db, t), RowsOf(p.db, t), n) && p.rows == [n.doc]
    ensures n.pk == PyStr(Get(n.doc, PkField(t)), env.text)
    ensures HasPayload(n.doc, payload, t) && HasDefaults(n.doc, payload, t, env)
  {
    var row := ApplyDefaults(db, t, payload, env, 0);
    InsertCases(db, t, payload, env);
    WrittenFiles(db, t, row, env);
    DefaultedDoc(db, t, payload, env);
    n := Row(NextRowid(RowsOf(db, t)), KeyText(t, row, env.text), row);
  }

  /** A stored row has the same values in the columns, and SQLite finds it. */
  ghost predicate Clashes(rows: Table, row: Doc, columns: seq<string>, except: Option<string>, pk: string, text: Text) {
    !Hidden(row, columns, text)
    && exists r :: r in rows && SameTuple(r.doc, row, columns)
                   && (except.Some? ==> PyStr(Get(r.doc, pk), text) != except.value)
  }

  lemma ClashIsTaken(rows: Table, row: Doc, columns: seq<string>, except: Option<string>, pk: string, text: Text)
    requires !TooBig(row, columns)
    ensures Taken(rows, pk, columns, row, except, text) <==> Clashes(rows, row, columns, except, pk, text)
  {
    TakenExact(rows, pk, columns, row, except, text);
    if r :| r in rows && SameTuple(r.doc, row, columns)
            && (except.Some? ==> PyStr(Get(r.doc, pk), text) != except.value) {
      assert Blocks(r.doc, pk, columns, row, except, text);
    }
  }

  /** The constraint allows the row: its values can be looked up, and no other row has them. */
  ghost predicate Admits(t: Name, rows: Table, row: Doc, except: Option<string>, text: Text) {
    UniqueColumns(t) != [] ==>
      !TooBig(row, UniqueColumns(t)) && !Clashes(rows, row, UniqueColumns(t), except, PkField(t), text)
  }

  lemma AdmitsExactly(t: Name, rows: Table, row: Doc, except: Option<string>, text: Text)
    ensures UniqueRefusal(t, rows, row, except, text).None? <==> Admits(t, rows, row, except, text)
  {
    if UniqueColumns(t) != [] && !TooBig(row, UniqueColumns(t)) {
      ClashIsTaken(rows, row, UniqueColumns(t), except, PkField(t), text);
    }
  }

  /** Why the table's constraint refuses the row, if it does. */
  ghost function ConstraintFailure(t: Name, rows: Table, row: Doc, except: Option<string>, text: Text)
    : Option<Failure>
  {
    if UniqueColumns(t) == [] then None
    else if TooBig(row, UniqueColumns(t)) then Some(Oversized)
    else if Clashes(rows, row, UniqueColumns(t), except, PkField(t), text) then Some(DuplicateUnique)
    else None
  }

  lemma RefusedAs(t: Name, rows: Table, row: Doc, except: Option<string>, text: Text)
    ensures UniqueRefusal(t, rows, row, except, text) == ConstraintFailure(t, rows, row, except, text)
  {
    if UniqueColumns(t) != [] && !TooBig(row, UniqueColumns(t)) {
      ClashIsTaken(rows, row, UniqueColumns(t), except, PkField(t), text);
    }
  }

  /** An insert fails for the first of these: its key cannot be looked up, a stored row has its key, the
      constraint refuses it, it has no key. */
  lemma InsertFailsAs(db: Db, t: Name, payload: Doc, row: Doc, env: Env)
    requires row == ApplyDefaults(db, t, payload, env, 0)
    ensures var rows, pk := RowsOf(db, t), PkField(t);
      Apply(db, Insert(t, payload), env).failure ==
        if TooBig(row, [pk]) then Some(Oversized)
        else if Clashes(rows, row, [pk], None, pk, env.text) then Some(DuplicateKey)
        else if ConstraintFailure(t, rows, row, None, env.text).Some? then
          ConstraintFailure(t, rows, row, None, env.text)
        else if pk !in row then Some(KeyMissing)
        else None
  {
    var rows, pk := RowsOf(db, t), PkField(t);
    if !TooBig(row, [pk]) {
      ClashIsTaken(rows, row, [pk], None, pk, env.text);
    }
    RefusedAs(t, rows, row, None, env.text);
    InsertDecided(db, t, payload, row, env);
  }

  lemma InsertDecided(db: Db, t: Name, payload: Doc, row: Doc, env: Env)
    requires row == ApplyDefaults(db, t, payload, env, 0)
    ensures var rows := RowsOf(db, t);
      var key, refusal := KeyRefusal(t, rows, row, env.text), UniqueRefusal(t, rows, row, None, env.text);
      Apply(db, Insert(t, payload), env).failure ==
        if key.Some? then key
        else if refusal.Some? then refusal
        else if PkField(t) !in row then Some(KeyMissing)
        else None
  {
  }

  // ---- Upsert ----------------------------------------------------------------------------

  /** The first stored row whose key equals the given one. */
  ghost predicate FirstWithKey(rows: Table, i: nat, pk: string, key: Json) {
    i < |rows| && PyEq(Get(rows[i].doc, pk), key)
    && forall j :: 0 <= j < i ==> !PyEq(Get(rows[j].doc, pk), key)
  }

  /** The document is the payload over the stored one: the payload's value in each of its columns, and
      the stored value in every other. */
  ghost predicate Over(doc: Doc, payload: Doc, stored: Doc) {
    (forall c :: c in payload ==> c in doc && doc[c] == payload[c])
    && (forall c :: c in stored && c !in payload ==> c in doc && doc[c] == stored[c])
    && (forall c :: c in doc ==> c in payload || c in stored)
  }

  /** The key of the payload is one a lookup can find. */
  predicate Findable(payload: Doc, pk: string, text: Text) {
    !Get(payload, pk).Null? && !Hidden(payload, [pk], text)
  }

  lemma {:induction false} FirstKeyedIs(found: Table, pk: string, key: Json) returns (m: nat)
    ensures m <= |found| && forall k :: 0 <= k < m ==> !PyEq(Get(found[k].doc, pk), key)
    ensures if m == |found| then FirstKeyed(found, pk, key).None?
            else PyEq(Get(found[m].doc, pk), key) && FirstKeyed(found, pk, key) == Some(found[m].doc)
  {
    if found == [] || PyEq(Get(found[0].doc, pk), key) {
      m := 0;
    } else {
      var k := FirstKeyedIs(found[1..], pk, key);
      m := k + 1;
    }
  }

  lemma FirstOfBoth(rows: Table, found: Table, i: nat, m: nat, pk: string, key: Json)
    requires RowidOrdered(rows) && RowidOrdered(found) && FirstWithKey(rows, i, pk, key) && rows[i] in found
    requires forall r :: r in found ==> r in rows
    requires m < |found| && PyEq(Get(found[m].doc, pk), key)
    requires forall k :: 0 <= k < m ==> !PyEq(Get(found[k].doc, pk), key)
    ensures found[m] == rows[i]
  {
    assert found[m] in found;
    var j :| 0 <= j < |rows| && rows[j] == found[m];
    var n :| 0 <= n < |found| && found[n] == rows[i];
    assert j >= i && n >= m;
  }

  lemma KeyFilter(payload: Doc, pk: string)
    ensures EqualTo(payload, [pk]) == [Eq(pk, Get(payload, pk))]
    ensures forall doc: Doc :: SameTuple(doc, payload, [pk]) <==> PyEq(Get(doc, pk), Get(payload, pk))
  {
    assert [pk][0] == pk;
    forall doc: Doc ensures SameTuple(doc, payload, [pk]) <==> PyEq(Get(doc, pk), Get(payload, pk)) {
      assert SameTuple(doc, payload, [pk]) ==> PyEq(Get(doc, [pk][0]), Get(payload, [pk][0]));
    }
  }

  /** What the upsert's own lookup gives: the first stored row of the same key. */
  lemma ExistingIs(db: Db, t: Name, payload: Doc, text: Text)
    requires DbOk(db, text) && !TooBig(payload, [PkField(t)])
    ensures var rows, pk, existing := RowsOf(db, t), PkField(t), Existing(db, t, payload, text);
      (forall i: nat :: FirstWithKey(rows, i, pk, Get(payload, pk)) && Findable(payload, pk, text) ==>
         existing == Some(rows[i].doc))
      && ((forall i: nat :: !FirstWithKey(rows, i, pk, Get(payload, pk))) || !Findable(payload, pk, text) ==>
            existing == None)
  {
    var rows, pk := RowsOf(db, t), PkField(t);
    var key := Get(payload, pk);
    KeyFilter(payload, pk);
    if !key.Null? {
      assert TableOk(rows, t, text);
      FindIsComplete(rows, payload, [pk], text);
      FoundDistinct(rows, [Eq(pk, key)], text);
      var found := Find(rows, [Eq(pk, key)], text).rows;
      var m := FirstKeyedIs(found, pk, key);
      if m < |found| {
        assert found[m] in found && found[m] in rows;
        var i := FirstOf(rows, found[m], pk, key);
        FirstOfBoth(rows, found, i, m, pk, key);
        OnlyFirst(rows, i, pk, key);
      } else {
        NoneFound(rows, found, pk, key, Hidden(payload, [pk], text));
      }
    }
  }

  lemma FirstOf(rows: Table, r: Row, pk: string, key: Json) returns (i: nat)
    requires r in rows && PyEq(Get(r.doc, pk), key)
    ensures FirstWithKey(rows, i, pk, key)
  {
    i := FirstKeyedIs(rows, pk, key);
    var j :| 0 <= j < |rows| && rows[j] == r;
  }

  lemma OnlyFirst(rows: Table, i: nat, pk: string, key: Json)
    requires FirstWithKey(rows, i, pk, key)
    ensures forall j: nat :: FirstWithKey(rows, j, pk, key) ==> j == i
  {
  }

  lemma NoneFound(rows: Table, found: Table, pk: string, key: Json, hidden: bool)
    requires forall r :: r in found ==> !PyEq(Get(r.doc, pk), key)
    requires forall r :: r in rows && PyEq(Get(r.doc, pk), key) ==> (r in found <==> !hidden)
    ensures hidden || forall i: nat :: !FirstWithKey(rows, i, pk, key)
  {
    forall i: nat ensures hidden || !FirstWithKey(rows, i, pk, key) {
      if FirstWithKey(rows, i, pk, key) {
        assert rows[i] in rows;
      }
    }
  }

  lemma UpsertOutcome(db: Db, t: Name, payload: Doc, env: Env)
    requires Apply(db, Upsert(t, payload), env).failure.None?
    ensures !AppendOnly(t) && !TooBig(payload, [PkField(t)])
    ensures Apply(db, Upsert(t, payload), env) == Written(Begin(db), t, UpsertDoc(db, t, payload, env), env)
  {
  }

  /** A successful upsert files one row, under the text of its own key, leaves every other row, and
      returns what it filed. Where a lookup finds stored rows of the payload's key, the row is the
      payload over the first of them; otherwise it is the payload with its defaults. */
  lemma UpsertFiles(db: Db, t: Name, payload: Doc, env: Env) returns (n: Row)
    requires DbOk(db, env.text) && Apply(db, Upsert(t, payload), env).failure.None?
    ensures var p := Apply(db, Upsert(t, payload), env);
      Filed(RowsOf(db, t), RowsOf(p.db, t), n) && p.rows == [n.doc]
    ensures n.pk == PyStr(Get(n.doc, PkField(t)), env.text)
    ensures var rows, pk, key := RowsOf(db, t), PkField(t), Get(payload, PkField(t));
      if Findable(payload, pk, env.text) && exists i: nat :: FirstWithKey(rows, i, pk, key)
      then forall i: nat :: FirstWithKey(rows, i, pk, key) ==> Over(n.doc, payload, rows[i].doc)
      else HasPayload(n.doc, payload, t) && HasDefaults(n.doc, payload, t, env)
  {
    var row := UpsertDoc(db, t, payload, env);
    UpsertOutcome(db, t, payload, env);
    WrittenFiles(db, t, row, env);
    ExistingIs(db, t, payload, env.text);
    DefaultedDoc(db, t, payload, env);
    n := Row(NextRowid(RowsOf(db, t)), KeyText(t, row, env.text), row);
    MergedOver(db, t, payload, env);
  }

  lemma MergedOver(db: Db, t: Name, payload: Doc, env: Env)
    ensures var existing := Existing(db, t, payload, env.text);
      if existing.Some? then Over(UpsertDoc(db, t, payload, env), payload, existing.value)
      else UpsertDoc(db, t, payload, env) == ApplyDefaults(db, t, payload, env, 0)
  {
  }

  lemma HistoryTables(t: Name)
    ensures AppendOnly(t) <==> t in HISTORY
  {
  }

  /** An upsert fails for the first of these: the table only grows, the key cannot be looked up, another
      row holds the tuple of the row it comes to, that row has no key. */
  lemma UpsertFailsAs(db: Db, t: Name, payload: Doc, row: Doc, self: string, env: Env)
    requires row == UpsertDoc(db, t, payload, env) && self == KeyText(t, row, env.text)
    ensures Apply(db, Upsert(t, payload), env).failure ==
      if t in HISTORY then Some(RewritesHistory)
      else if TooBig(payload, [PkField(t)]) then Some(Oversized)
      else if ConstraintFailure(t, RowsOf(db, t), row, Some(self), env.text).Some? then
        ConstraintFailure(t, RowsOf(db, t), row, Some(self), env.text)
      else if PkField(t) !in row then Some(KeyMissing)
      else None
  {
    HistoryTables(t);
    RefusedAs(t, RowsOf(db, t), row, Some(self), env.text);
    UpsertDecided(db, t, payload, row, env);
  }

  lemma UpsertDecided(db: Db, t: Name, payload: Doc, row: Doc, env: Env)
    requires row == UpsertDoc(db, t, payload, env)
    ensures var refusal := UniqueRefusal(t, RowsOf(db, t), row, Some(KeyText(t, row, env.text)), env.text);
      Apply(db, Upsert(t, payload), env).failure ==
        if AppendOnly(t) then Some(RewritesHistory)
        else if TooBig(payload, [PkField(t)]) then Some(Oversized)
        else if refusal.Some? then refusal
        else if PkField(t) !in row then Some(KeyMissing)
        else None
  {
  }

  // ---- Delete ----------------------------------------------------------------------------

  function Docs(rows: Table): seq<Doc> {
    seq(|rows|, i requires 0 <= i < |rows| => rows[i].doc)
  }

  /** The rows an update or a delete acts on: those the lookup returns that pass the filters. */
  ghost predicate Chosen(rows: Table, filters: seq<Filter>, text: Text, r: Row) {
    var found := Find(rows, filters, text);
    found.Rows? && r in found.rows && PassesAll(r.doc, filters)
  }

  ghost predicate IsChosen(chosen: Table, rows: Table, filters: seq<Filter>, text: Text) {
    RowidOrdered(chosen) && forall r :: r in chosen <==> r in rows && Chosen(rows, filters, text, r)
  }

  /** For filters of matching type that can be bound, the lookup returns the rows that pass. */
  lemma ChosenExactly(rows: Table, filters: seq<Filter>, text: Text, r: Row)
    requires TypesMatch(rows, filters, text) && PyFilter(rows, filters).Rows?
    requires (forall k :: 0 <= k < |filters| ==> Pushable(filters[k])) ==>
      forall k :: 0 <= k < |filters| ==> FilterBinds(filters[k])
    ensures Chosen(rows, filters, text, r) <==> r in rows && PassesAll(r.doc, filters)
  {
    if forall k :: 0 <= k < |filters| ==> Pushable(filters[k]) {
      FilterRowsAgree(rows, filters, text);
    }
    PyFilterExactly(rows, filters);
  }

  lemma DropsKey(p: Progress, t: Name, r: Row, env: Env)
    requires !t.AuditOutbox?
    ensures var q := DeleteRow(p, t, r, env);
      RowsOf(q.db, t) == Without(RowsOf(p.db, t), KeyText(t, r.doc, env.text)) && q.rows == p.rows + [r.doc]
  {
  }

  function Keys(rows: Table, t: Name, text: Text): (keys: seq<string>)
    ensures |keys| == |rows|
  {
    seq(|rows|, i requires 0 <= i < |rows| => KeyText(t, rows[i].doc, text))
  }

  /** What is left of the rows when those filed under the keys are gone. */
  ghost predicate Left(rows: Table, after: Table, keys: seq<string>) {
    RowidOrdered(after) && DistinctPks(after) && forall r :: r in after <==> r in rows && r.pk !in keys
  }

  lemma LeftStep(rows: Table, before: Table, keys: seq<string>, key: string)
    requires Left(rows, before, keys)
    ensures Left(rows, Without(before, key), keys + [key])
  {
    WithoutMembers(before, key);
    WithoutOrdered(before, key);
  }

  lemma {:induction false} DeletesKeys(db: Db, removed: Table, t: Name, env: Env)
    requires !t.AuditOutbox? && RowidOrdered(RowsOf(db, t)) && DistinctPks(RowsOf(db, t))
    ensures var p := DeleteRows(Begin(db), removed, t, env);
      p.rows == Docs(removed) && Left(RowsOf(db, t), RowsOf(p.db, t), Keys(removed, t, env.text))
  {
    if removed != [] {
      var front, last := removed[..|removed| - 1], removed[|removed| - 1];
      DeletesKeys(db, front, t, env);
      var p := DeleteRows(Begin(db), front, t, env);
      DropsKey(p, t, last, env);
      LeftStep(RowsOf(db, t), RowsOf(p.db, t), Keys(front, t, env.text), KeyText(t, last.doc, env.text));
      LastOne(front, last, removed, t, env.text);
    }
  }

  lemma LastOne(front: Table, last: Row, all: Table, t: Name, text: Text)
    requires all != [] && front == all[..|all| - 1] && last == all[|all| - 1]
    ensures Docs(all) == Docs(front) + [last.doc]
    ensures Keys(all, t, text) == Keys(front, t, text) + [KeyText(t, last.doc, text)]
  {
  }

  lemma DeleteOutcome(db: Db, t: Name, filters: seq<Filter>, env: Env)
    requires Apply(db, Delete(t, filters), env).failure.None?
    ensures !AppendOnly(t) && Find(RowsOf(db, t), filters, env.text).Rows?
    ensures var found := Find(RowsOf(db, t), filters, env.text).rows;
      PyFilter(found, filters).Rows?
      && Apply(db, Delete(t, filters), env) == DeleteRows(Begin(db), PyFilter(found, filters).rows, t, env)
  {
  }

  lemma ChosenRows(rows: Table, filters: seq<Filter>, text: Text)
    requires RowidOrdered(rows) && DistinctPks(rows) && Find(rows, filters, text).Rows?
    requires PyFilter(Find(rows, filters, text).rows, filters).Rows?
    ensures IsChosen(PyFilter(Find(rows, filters, text).rows, filters).rows, rows, filters, text)
  {
    var found := Find(rows, filters, text).rows;
    FoundDistinct(rows, filters, text);
    PyFilterKeeps(found, filters);
    PyFilterExactly(found, filters);
  }

  lemma SameKeySameRow(rows: Table, name: Name, r: Row, d: Row, text: Text)
    requires TableOk(rows, name, text) && r in rows && d in rows
    ensures r.pk == KeyText(name, d.doc, text) <==> r == d
  {
    assert Keyed(name, d.pk, d.doc, text);
    var i :| 0 <= i < |rows| && rows[i] == r;
    var j :| 0 <= j < |rows| && rows[j] == d;
  }

  /** A successful delete leaves exactly the rows that were not chosen, in their old order, and returns
      the documents of the chosen ones in theirs. */
  lemma DeleteLeaves(db: Db, t: Name, filters: seq<Filter>, env: Env) returns (removed: Table)
    requires DbOk(db, env.text) && Apply(db, Delete(t, filters), env).failure.None?
    ensures IsChosen(removed, RowsOf(db, t), filters, env.text)
    ensures var p := Apply(db, Delete(t, filters), env);
      p.rows == Docs(removed) && RowidOrdered(RowsOf(p.db, t))
      && forall r :: r in RowsOf(p.db, t) <==> r in RowsOf(db, t) && !Chosen(RowsOf(db, t), filters, env.text, r)
  {
    var rows := RowsOf(db, t);
    assert TableOk(rows, t, env.text);
    DeleteOutcome(db, t, filters, env);
    removed := PyFilter(Find(rows, filters, env.text).rows, filters).rows;
    ChosenRows(rows, filters, env.text);
    DeletesKeys(db, removed, t, env);
    forall r | r in rows ensures r.pk in Keys(removed, t, env.text) <==> r in removed {
      KeyInKeys(rows, removed, t, r, env.text);
    }
  }

  lemma KeyInKeys(rows: Table, removed: Table, t: Name, r: Row, text: Text)
    requires TableOk(rows, t, text) && r in rows && forall d :: d in removed ==> d in rows
    ensures r.pk in Keys(removed, t, text) <==> r in removed
  {
    forall i | 0 <= i < |removed| ensures r.pk == Keys(removed, t, text)[i] <==> r == removed[i] {
      assert removed[i] in removed;
      SameKeySameRow(rows, t, r, removed[i], text);
    }
  }

  /** A delete succeeds exactly when the table's history may change, its filters can be looked up, and
      no row the lookup returns holds a cell that cannot be compared. */
  lemma DeleteAcceptedExactly(db: Db, t: Name, filters: seq<Filter>, env: Env)
    ensures var found := Find(RowsOf(db, t), filters, env.text);
      Apply(db, Delete(t, filters), env).failure.None?
      <==> !AppendOnly(t) && found.Rows? && forall r :: r in found.rows ==> !Balks(r.doc, filters)
  {
    if !AppendOnly(t) && Find(RowsOf(db, t), filters, env.text).Rows? {
      var found := Find(RowsOf(db, t), filters, env.text).rows;
      PyFilterRaises(found, filters);
      DeleteRowsSucceed(db, found, filters, t, env);
    }
  }

  lemma DeleteRowsSucceed(db: Db, found: Table, filters: seq<Filter>, t: Name, env: Env)
    ensures PyFilter(found, filters).Rows? ==>
      DeleteRows(Begin(db), PyFilter(found, filters).rows, t, env).failure.None?
  {
    if PyFilter(found, filters).Rows? {
      DeletesNeverFail(db, PyFilter(found, filters).rows, t, env);
    }
  }

  lemma {:induction false} DeletesNeverFail(db: Db, removed: Table, t: Name, env: Env)
    ensures DeleteRows(Begin(db), removed, t, env).failure.None?
  {
    if removed != [] {
      DeletesNeverFail(db, removed[..|removed| - 1], t, env);
    }
  }

  // ---- Update ----------------------------------------------------------------------------

  /** The document is the stored one with the payload over it, and a job that this completes is
      stamped with the clock unless it has a completion time. */
  ghost predicate Updated(doc: Doc, stored: Doc, payload: Doc, t: Name, env: Env) {
    var status := if "status" in payload then payload["status"] else Get(stored, "status");
    var done := if "completed_at" in payload then payload["completed_at"] else Get(stored, "completed_at");
    if t.AgentJobs? && status == Str("completed") && SaysNothing(done)
    then Over(doc, payload["completed_at" := Str(env.now)], stored) else Over(doc, payload, stored)
  }

  lemma CompletedIsUpdated(t: Name, stored: Doc, payload: Doc, env: Env)
    ensures Updated(Completed(t, stored + payload, env), stored, payload, t, env)
  {
  }

  /** Where a key comes last in a list. */
  function LastAt(keys: seq<string>, key: string): (i: Option<nat>)
    ensures i.Some? ==> i.value < |keys| && keys[i.value] == key
  {
    if keys == [] then None
    else if keys[|keys| - 1] == key then Some(|keys| - 1)
    else LastAt(keys[..|keys| - 1], key)
  }

  function KeyTexts(docs: seq<Doc>, t: Name, text: Text): (keys: seq<string>)
    ensures |keys| == |docs|
  {
    seq(|docs|, i requires 0 <= i < |docs| => PyStr(Get(docs[i], PkField(t)), text))
  }

  /** Each key holds the last of the documents with that key; rows under other keys are as before. */
  ghost predicate Rewritten(rows: Table, after: Table, docs: seq<Doc>, keys: seq<string>) {
    |keys| == |docs|
    && (forall r :: r in after ==>
          match LastAt(keys, r.pk) case Some(i) => r.doc == docs[i] case None => r in rows)
    && (forall r :: r in rows && LastAt(keys, r.pk) == None ==> r in after)
    && (forall key :: LastAt(keys, key).Some? ==> exists r :: r in after && r.pk == key)
  }

  lemma LastAtGrows(keys: seq<string>, next: string, key: string)
    ensures LastAt(keys + [next], key) == if key == next then Some(|keys|) else LastAt(keys, key)
  {
    assert (keys + [next])[..|keys|] == keys;
  }

  lemma RewrittenStep(rows: Table, before: Table, after: Table, docs: seq<Doc>, keys: seq<string>, n: Row)
    requires Rewritten(rows, before, docs, keys) && Filed(before, after, n)
    ensures Rewritten(rows, after, docs + [n.doc], keys + [n.pk])
  {
    forall key ensures LastAt(keys + [n.pk], key) == if key == n.pk then Some(|keys|) else LastAt(keys, key) {
      LastAtGrows(keys, n.pk, key);
    }
    forall key | LastAt(keys + [n.pk], key).Some? ensures exists r :: r in after && r.pk == key {
      if key == n.pk {
        assert n in after;
      } else {
        var r :| r in before && r.pk == key;
        assert r in after;
      }
    }
  }

  /** How far an update has come: the chosen rows of the found ones so far, the documents written for
      them, and the table. */
  ghost predicate UpdatedSoFar(p: Progress, db: Db, found: Table, op: Op, env: Env, chosen: Table)
    requires op.Update?
  {
    RowidOrdered(chosen) && (forall r :: r in chosen <==> r in found && PassesAll(r.doc, op.filters))
    && |p.rows| == |chosen|
    && (forall i :: 0 <= i < |chosen| ==> Updated(p.rows[i], chosen[i].doc, op.payload, op.t, env))
    && Rewritten(RowsOf(db, op.t), RowsOf(p.db, op.t), p.rows, KeyTexts(p.rows, op.t, env.text))
  }

  lemma WriteFiles(p: Progress, t: Name, row: Doc, env: Env) returns (n: Row)
    requires DbOk(p.db, env.text) && !t.AuditOutbox? && Written(p, t, row, env).failure.None?
    ensures var q := Written(p, t, row, env);
      q.rows == p.rows + [row] && n.doc == row && n.pk == PyStr(Get(row, PkField(t)), env.text)
      && Filed(RowsOf(p.db, t), RowsOf(q.db, t), n)
  {
    assert TableOk(RowsOf(p.db, t), t, env.text);
    n := Row(NextRowid(RowsOf(p.db, t)), KeyText(t, row, env.text), row);
    PutFiles(RowsOf(p.db, t), n.pk, row);
  }

  lemma UpdateRowOutcome(p: Progress, r: Row, op: Op, env: Env)
    requires op.Update? && UpdateRow(p, op.t, r, op, env).failure.None?
    ensures p.failure.None? && !PyMatches(r.doc, op.filters).Raises?
    ensures UpdateRow(p, op.t, r, op, env) ==
      if PyMatches(r.doc, op.filters).Hit? then Written(p, op.t, Completed(op.t, r.doc + op.payload, env), env) else p
  {
  }

  lemma RewrittenNothing(rows: Table)
    ensures Rewritten(rows, rows, [], [])
  {
  }

  lemma {:induction false} UpdatesRows(db: Db, found: Table, op: Op, env: Env) returns (chosen: Table)
    requires Inv(db, env.text) && Fresh(env, db, 1) && op.Update? && !AppendOnly(op.t) && RowidOrdered(found)
    requires UpdateRows(Begin(db), found, op, env).failure.None?
    ensures UpdatedSoFar(UpdateRows(Begin(db), found, op, env), db, found, op, env, chosen)
  {
    if found == [] {
      chosen := [];
      RewrittenNothing(RowsOf(db, op.t));
      assert KeyTexts([], op.t, env.text) == [];
    } else {
      var front, last := found[..|found| - 1], found[|found| - 1];
      var p := UpdateRows(Begin(db), front, op, env);
      UpdateRowOutcome(p, last, op, env);
      chosen := UpdatesRows(db, front, op, env);
      UpdateKeeps(db, front, op, env);
      MatchesPasses(last.doc, op.filters);
      if PyMatches(last.doc, op.filters).Hit? {
        UpdatedNext(p, db, front, op, env, chosen, last);
        chosen := chosen + [last];
      }
      assert found == front + [last];
    }
  }

  lemma UpdatedNext(p: Progress, db: Db, front: Table, op: Op, env: Env, chosen: Table, last: Row)
    requires op.Update? && UpdatedSoFar(p, db, front, op, env, chosen) && PassesAll(last.doc, op.filters)
    requires DbOk(p.db, env.text) && !AppendOnly(op.t) && forall r :: r in front ==> r.rowid < last.rowid
    requires Written(p, op.t, Completed(op.t, last.doc + op.payload, env), env).failure.None?
    ensures UpdatedSoFar(Written(p, op.t, Completed(op.t, last.doc + op.payload, env), env), db, front + [last], op,
                         env, chosen + [last])
  {
    var row := Completed(op.t, last.doc + op.payload, env);
    var n := WriteFiles(p, op.t, row, env);
    CompletedIsUpdated(op.t, last.doc, op.payload, env);
    ChosenNext(front, chosen, last, op.filters);
    KeyTextsGrow(p.rows, row, op.t, env.text);
    SoFarGrows(p, Written(p, op.t, row, env), db, front, op, env, chosen, last, n);
  }

  lemma KeyTextsGrow(docs: seq<Doc>, doc: Doc, t: Name, text: Text)
    ensures KeyTexts(docs + [doc], t, text) == KeyTexts(docs, t, text) + [PyStr(Get(doc, PkField(t)), text)]
  {
  }

  lemma SoFarGrows(p: Progress, q: Progress, db: Db, front: Table, op: Op, env: Env, chosen: Table, last: Row, n: Row)
    requires op.Update? && UpdatedSoFar(p, db, front, op, env, chosen)
    requires RowidOrdered(chosen + [last])
    requires forall r :: r in chosen + [last] <==> r in front + [last] && PassesAll(r.doc, op.filters)
    requires q.rows == p.rows + [n.doc] && Updated(n.doc, last.doc, op.payload, op.t, env)
    requires Filed(RowsOf(p.db, op.t), RowsOf(q.db, op.t), n)
    requires KeyTexts(q.rows, op.t, env.text) == KeyTexts(p.rows, op.t, env.text) + [n.pk]
    ensures UpdatedSoFar(q, db, front + [last], op, env, chosen + [last])
  {
    var keys := KeyTexts(p.rows, op.t, env.text);
    RewrittenStep(RowsOf(db, op.t), RowsOf(p.db, op.t), RowsOf(q.db, op.t), p.rows, keys, n);
  }

  lemma ChosenNext(front: Table, chosen: Table, last: Row, filters: seq<Filter>)
    requires RowidOrdered(chosen) && (forall r :: r in chosen <==> r in front && PassesAll(r.doc, filters))
    requires PassesAll(last.doc, filters) && forall r :: r in front ==> r.rowid < last.rowid
    ensures RowidOrdered(chosen + [last])
    ensures forall r :: r in chosen + [last] <==> r in front + [last] && PassesAll(r.doc, filters)
  {
    assert forall i :: 0 <= i < |chosen| ==> chosen[i] in chosen;
  }

  lemma UpdateOutcome(db: Db, op: Op, env: Env)
    requires op.Update? && Apply(db, op, env).failure.None?
    ensures !AppendOnly(op.t) && Find(RowsOf(db, op.t), op.filters, env.text).Rows?
    ensures Apply(db, op, env) == UpdateRows(Begin(db), Find(RowsOf(db, op.t), op.filters, env.text).rows, op, env)
  {
  }

  /** A successful update writes, for exactly the chosen rows and in their order, the row with the
      payload and the completion stamp over it, and returns what it wrote; each key holds the last
      document written under it, and every row under another key is as it was. */
  lemma UpdateRewrites(db: Db, op: Op, env: Env) returns (chosen: Table)
    requires Inv(db, env.text) && Fresh(env, db, 1) && op.Update? && Apply(db, op, env).failure.None?
    ensures IsChosen(chosen, RowsOf(db, op.t), op.filters, env.text)
    ensures var p := Apply(db, op, env);
      |p.rows| == |chosen|
      && (forall i :: 0 <= i < |chosen| ==> Updated(p.rows[i], chosen[i].doc, op.payload, op.t, env))
      && Rewritten(RowsOf(db, op.t), RowsOf(p.db, op.t), p.rows, KeyTexts(p.rows, op.t, env.text))
  {
    var rows := RowsOf(db, op.t);
    assert TableOk(rows, op.t, env.text);
    UpdateOutcome(db, op, env);
    FoundDistinct(rows, op.filters, env.text);
    chosen := UpdatesRows(db, Find(rows, op.filters, env.text).rows, op, env);
  }

  lemma {:induction false} LastOfDistinct(keys: seq<string>, i: nat)
    requires i < |keys| && forall j :: i < j < |keys| ==> keys[j] != keys[i]
    ensures LastAt(keys, keys[i]) == Some(i)
    decreases |keys|
  {
    if i < |keys| - 1 {
      LastOfDistinct(keys[..|keys| - 1], i);
    }
  }

  /** Documents written each under the key of its own row are found under it. */
  lemma UnderOwnKey(chosen: Table, keys: seq<string>, i: nat)
    requires |keys| == |chosen| && DistinctPks(chosen) && i < |chosen|
    requires forall j :: 0 <= j < |chosen| ==> keys[j] == chosen[j].pk
    ensures LastAt(keys, chosen[i].pk) == Some(i)
  {
    LastOfDistinct(keys, i);
  }

  /** When the payload leaves the key alone, exactly the chosen rows carry it, each under its own key,
      and the others are unchanged. */
  lemma UpdateInPlace(db: Db, op: Op, env: Env) returns (chosen: Table)
    requires Inv(db, env.text) && Fresh(env, db, 1) && op.Update? && Apply(db, op, env).failure.None?
    requires PkField(op.t) !in op.payload
    ensures IsChosen(chosen, RowsOf(db, op.t), op.filters, env.text)
    ensures var after := RowsOf(Apply(db, op, env).db, op.t);
      (forall r :: r in RowsOf(db, op.t) && r !in chosen ==> r in after)
      && (forall r :: r in after ==>
            (r in RowsOf(db, op.t) && r !in chosen)
            || exists c :: c in chosen && c.pk == r.pk && Updated(r.doc, c.doc, op.payload, op.t, env))
      && forall c :: c in chosen ==> exists r :: r in after && r.pk == c.pk
  {
    var p := Apply(db, op, env);
    assert TableOk(RowsOf(db, op.t), op.t, env.text);
    chosen := UpdateRewrites(db, op, env);
    KeyIsNoStamp(op.t);
    OwnKeys(chosen, RowsOf(db, op.t), p.rows, op, env);
    InPlace(RowsOf(db, op.t), RowsOf(p.db, op.t), p.rows, chosen, KeyTexts(p.rows, op.t, env.text), op, env);
  }

  lemma InPlace(rows: Table, after: Table, docs: seq<Doc>, chosen: Table, keys: seq<string>, op: Op, env: Env)
    requires op.Update? && Rewritten(rows, after, docs, keys) && DistinctPks(rows) && DistinctPks(chosen)
    requires |keys| == |chosen| && forall i :: 0 <= i < |chosen| ==> keys[i] == chosen[i].pk
    requires forall i :: 0 <= i < |chosen| ==> Updated(docs[i], chosen[i].doc, op.payload, op.t, env)
    requires forall c :: c in chosen ==> c in rows
    ensures forall r :: r in rows && r !in chosen ==> r in after
    ensures forall r :: r in after ==>
      (r in rows && r !in chosen)
      || exists c :: c in chosen && c.pk == r.pk && Updated(r.doc, c.doc, op.payload, op.t, env)
    ensures forall c :: c in chosen ==> exists r :: r in after && r.pk == c.pk
  {
    forall r | r in rows && r !in chosen ensures r in after {
      KeysApart(rows, chosen, r);
      assert LastAt(keys, r.pk) == None;
    }
    forall r | r in after
      ensures (r in rows && r !in chosen)
        || exists c :: c in chosen && c.pk == r.pk && Updated(r.doc, c.doc, op.payload, op.t, env)
    {
      RewrittenRow(rows, after, docs, chosen, keys, op, env, r);
    }
    forall c | c in chosen ensures exists r :: r in after && r.pk == c.pk {
      var i :| 0 <= i < |chosen| && chosen[i] == c;
      UnderOwnKey(chosen, keys, i);
    }
  }

  lemma RewrittenRow(rows: Table, after: Table, docs: seq<Doc>, chosen: Table, keys: seq<string>, op: Op, env: Env,
                     r: Row)
    requires op.Update? && Rewritten(rows, after, docs, keys) && r in after && DistinctPks(chosen)
    requires |keys| == |chosen| && forall i :: 0 <= i < |chosen| ==> keys[i] == chosen[i].pk
    requires forall i :: 0 <= i < |chosen| ==> Updated(docs[i], chosen[i].doc, op.payload, op.t, env)
    ensures (r in rows && r !in chosen)
      || exists c :: c in chosen && c.pk == r.pk && Updated(r.doc, c.doc, op.payload, op.t, env)
  {
    match LastAt(keys, r.pk)
    case Some(i) => assert chosen[i] in chosen && chosen[i].pk == r.pk;
    case None =>
      if r in chosen {
        var i :| 0 <= i < |chosen| && chosen[i] == r;
        UnderOwnKey(chosen, keys, i);
        assert false;
      }
  }

  lemma KeyIsNoStamp(t: Name)
    ensures PkField(t) != "completed_at"
  {
    assert |PkField(t)| != |"completed_at"|;
  }

  lemma OwnKeys(chosen: Table, rows: Table, docs: seq<Doc>, op: Op, env: Env)
    requires op.Update? && TableOk(rows, op.t, env.text) && IsChosen(chosen, rows, op.filters, env.text)
    requires PkField(op.t) !in op.payload && PkField(op.t) != "completed_at" && |docs| == |chosen|
    requires forall i :: 0 <= i < |chosen| ==> Updated(docs[i], chosen[i].doc, op.payload, op.t, env)
    ensures DistinctPks(chosen)
    ensures forall i :: 0 <= i < |chosen| ==> KeyTexts(docs, op.t, env.text)[i] == chosen[i].pk
  {
    forall i, j | 0 <= i < j < |chosen| ensures chosen[i].pk != chosen[j].pk {
      assert chosen[i] in rows && chosen[j] in rows && chosen[i].rowid < chosen[j].rowid;
    }
    forall i | 0 <= i < |chosen| ensures KeyTexts(docs, op.t, env.text)[i] == chosen[i].pk {
      assert chosen[i] in chosen && Keyed(op.t, chosen[i].pk, chosen[i].doc, env.text);
      assert Updated(docs[i], chosen[i].doc, op.payload, op.t, env);
    }
  }

  lemma KeysApart(rows: Table, chosen: Table, r: Row)
    requires DistinctPks(rows) && r in rows && r !in chosen && forall c :: c in chosen ==> c in rows
    ensures forall i :: 0 <= i < |chosen| ==> chosen[i].pk != r.pk
  {
    forall i | 0 <= i < |chosen| ensures chosen[i].pk != r.pk {
      assert chosen[i] in chosen && chosen[i] in rows;
    }
  }

  /** One row's turn in an update goes through exactly when the row passes by, or it passes the filters
      and its new form has a key and a tuple that no row of another key holds at that moment. */
  lemma UpdateStepExactly(p: Progress, r: Row, op: Op, env: Env)
    requires op.Update? && p.failure.None? && !PyMatches(r.doc, op.filters).Raises?
    ensures UpdateRow(p, op.t, r, op, env).failure.None?
      <==> (PassesAll(r.doc, op.filters) ==>
              PkField(op.t) in r.doc + op.payload
              && Admits(op.t, RowsOf(p.db, op.t), r.doc + op.payload, Some(KeyText(op.t, r.doc, env.text)), env.text))
  {
    MatchesPasses(r.doc, op.filters);
    AdmitsExactly(op.t, RowsOf(p.db, op.t), r.doc + op.payload, Some(KeyText(op.t, r.doc, env.text)), env.text);
    UpdateRowDecided(p, r, op, env);
  }

  lemma UpdateRowDecided(p: Progress, r: Row, op: Op, env: Env)
    requires op.Update? && p.failure.None? && !PyMatches(r.doc, op.filters).Raises?
    ensures UpdateRow(p, op.t, r, op, env).failure.None?
      <==> (PyMatches(r.doc, op.filters).Hit? ==>
              PkField(op.t) in Completed(op.t, r.doc + op.payload, env)
              && UniqueRefusal(op.t, RowsOf(p.db, op.t), r.doc + op.payload,
                               Some(KeyText(op.t, r.doc, env.text)), env.text).None?)
    ensures PkField(op.t) in Completed(op.t, r.doc + op.payload, env) <==> PkField(op.t) in r.doc + op.payload
  {
  }

  // ---- Evidence --------------------------------------------------------------------------

  /** The evidence row of one change: what was done to which job, and the job before and after. */
  ghost predicate Records(e: Doc, job: Doc, operation: string, before: Json, after: Json) {
    Get(e, "event") == Str("state_committed") && Get(e, "job_id") == Get(job, "id")
    && Detail(e, "operation") == Str(operation) && Detail(e, "before") == before && Detail(e, "after") == after
    && Get(e, "org_id") == (if "org_id" in job then job["org_id"] else Str("default"))
  }

  lemma EvidenceRecords(db: Db, job: Doc, operation: string, before: Json, after: Json, env: Env, draw: nat)
    ensures Records(Evidence(db, job, operation, before, after, env, draw), job, operation, before, after)
  {
    EvidenceFields(db, job, operation, before, after, env, draw);
    EvidenceOperation(db, job, operation, before, after, env, draw);
    EvidenceOrg(db, job, operation, before, after, env, draw);
  }

  lemma EvidenceOperation(db: Db, job: Doc, operation: string, before: Json, after: Json, env: Env, draw: nat)
    ensures Detail(Evidence(db, job, operation, before, after, env, draw), "operation") == Str(operation)
  {
  }

  lemma EvidenceOrg(db: Db, job: Doc, operation: string, before: Json, after: Json, env: Env, draw: nat)
    ensures Get(Evidence(db, job, operation, before, after, env, draw), "org_id")
      == if "org_id" in job then job["org_id"] else Str("default")
  {
  }

  lemma RecordedLast(outbox: Table, e: Doc, env: Env, draw: nat)
    requires FreshFor(env, outbox, draw)
    ensures Put(outbox, env.uuid(draw), e) == outbox + [Row(NextRowid(outbox), env.uuid(draw), e)]
  {
    WithoutNothing(outbox, env.uuid(draw));
  }

  /** Writing a job puts one evidence row behind the others: an INSERT of a job that was not stored under
      its key, or an UPDATE of the one that was. */
  lemma WriteIsRecorded(db: Db, job: Doc, env: Env, draw: nat) returns (n: Row)
    requires Fresh(env, db, draw) && "id" in job
    ensures var db' := WriteRow(db, AgentJobs, job, env, draw).value;
      RowsOf(db', AuditOutbox) == RowsOf(db, AuditOutbox) + [n]
    ensures var stored := Lookup(RowsOf(db, AgentJobs), KeyText(AgentJobs, job, env.text));
      Records(n.doc, job, if stored.Some? then "UPDATE" else "INSERT", DocJson(stored), Obj(job))
  {
    var pk := KeyText(AgentJobs, job, env.text);
    var stored, written := Lookup(RowsOf(db, AgentJobs), pk), PutRow(db, AgentJobs, pk, job);
    var operation := if stored.Some? then "UPDATE" else "INSERT";
    var e := Evidence(written, job, operation, DocJson(stored), Obj(job), env, draw);
    EvidenceFields(written, job, operation, DocJson(stored), Obj(job), env, draw);
    EvidenceRecords(written, job, operation, DocJson(stored), Obj(job), env, draw);
    RecordedLast(RowsOf(db, AuditOutbox), e, env, draw);
    n := Row(NextRowid(RowsOf(db, AuditOutbox)), env.uuid(draw), e);
  }

  /** Deleting a job puts one DELETE behind the others. */
  lemma DeleteIsRecorded(p: Progress, r: Row, env: Env) returns (n: Row)
    requires Fresh(env, p.db, p.drawn)
    ensures RowsOf(DeleteRow(p, AgentJobs, r, env).db, AuditOutbox) == RowsOf(p.db, AuditOutbox) + [n]
    ensures Records(n.doc, r.doc, "DELETE", Obj(r.doc), Null)
  {
    var e := Evidence(p.db, r.doc, "DELETE", Obj(r.doc), Null, env, p.drawn);
    EvidenceFields(p.db, r.doc, "DELETE", Obj(r.doc), Null, env, p.drawn);
    EvidenceRecords(p.db, r.doc, "DELETE", Obj(r.doc), Null, env, p.drawn);
    RecordedLast(RowsOf(p.db, AuditOutbox), e, env, p.drawn);
    n := Row(NextRowid(RowsOf(p.db, AuditOutbox)), env.uuid(p.drawn), e);
  }

  // ---- History ---------------------------------------------------------------------------

  lemma {:induction false} UpdateRewritesNoHistory(p: Progress, found: Table, op: Op, env: Env)
    requires op.Update? && p.failure.None?
    ensures UpdateRows(p, found, op, env).failure != Some(RewritesHistory)
  {
    if found != [] {
      UpdateRewritesNoHistory(p, found[..|found| - 1], op, env);
    }
  }

  /** Any write but an insert to one of the seven history tables is refused as such, no other write is, and
      a refused one changes nothing and returns nothing. */
  lemma HistoryRefusesExactly(db: Db, op: Op, env: Env)
    ensures Apply(db, op, env).failure == Some(RewritesHistory) <==> !op.Insert? && op.t in HISTORY
    ensures !op.Insert? && op.t in HISTORY ==> Apply(db, op, env).db == db && Apply(db, op, env).rows == []
  {
    if !AppendOnly(op.t) && op.Update? && Find(RowsOf(db, op.t), op.filters, env.text).Rows? {
      UpdateRewritesNoHistory(Begin(db), Find(RowsOf(db, op.t), op.filters, env.text).rows, op, env);
    }
    if !AppendOnly(op.t) && op.Delete? {
      DeleteRewritesNoHistory(db, op, env);
    }
  }

  lemma DeleteRewritesNoHistory(db: Db, op: Op, env: Env)
    requires op.Delete? && !AppendOnly(op.t)
    ensures Apply(db, op, env).failure != Some(RewritesHistory)
  {
    var found := Find(RowsOf(db, op.t), op.filters, env.text);
    if found.Rows? && PyFilter(found.rows, op.filters).Rows? {
      DeletesNeverFail(db, PyFilter(found.rows, op.filters).rows, op.t, env);
    }
  }

  // ---- Lookups that fail -----------------------------------------------------------------

  ghost predicate AllSent(filters: seq<Filter>) {
    forall i :: 0 <= i < |filters| ==> SentFilter(filters[i])
  }

  ghost predicate WantsWide(filters: seq<Filter>) {
    exists i, v :: 0 <= i < |filters| && v in Wanted(filters[i]) && v.Num? && Wide(v.n)
  }

  lemma FindFailsAs(rows: Table, filters: seq<Filter>, text: Text)
    ensures Find(rows, filters, text).TypeError?
      <==> !AllSent(filters) && exists r :: r in rows && Balks(r.doc, filters)
    ensures Find(rows, filters, text).Overflow? <==> AllSent(filters) && WantsWide(filters)
  {
    forall i | 0 <= i < |filters|
      ensures Pushable(filters[i]) <==> SentFilter(filters[i])
      ensures FilterBinds(filters[i]) <==> forall v :: v in Wanted(filters[i]) ==> !(v.Num? && Wide(v.n))
    {
      FilterSent(filters[i]);
    }
    PyFilterRaises(rows, filters);
  }

  lemma LookupRaises(db: Db, op: Op, env: Env)
    requires (op.Update? || op.Delete?) && !AppendOnly(op.t)
    ensures var p, found := Apply(db, op, env), Find(RowsOf(db, op.t), op.filters, env.text);
      (found.TypeError? ==> p == Failed(Begin(db), UnlikeTypes))
      && (found.Overflow? ==> p == Failed(Begin(db), Oversized))
  {
  }

  /** An update or a delete whose filters cannot be looked up fails with the error of the lookup, before it
      writes anything: unlike types in the simple form, a number too wide in the one pushed down. */
  lemma LookupFailsAs(db: Db, op: Op, env: Env)
    requires (op.Update? || op.Delete?) && op.t !in HISTORY
    ensures !AllSent(op.filters) && (exists r :: r in RowsOf(db, op.t) && Balks(r.doc, op.filters)) ==>
      Apply(db, op, env) == Progress(db, [], 1, Some(UnlikeTypes))
    ensures AllSent(op.filters) && WantsWide(op.filters) ==>
      Apply(db, op, env) == Progress(db, [], 1, Some(Oversized))
  {
    FindFailsAs(RowsOf(db, op.t), op.filters, env.text);
    LookupRaises(db, op, env);
  }
}
