/** The writes of the embedded job board, on values. Each operation maps a database to a database
    and an outcome; an operation that fails part-way keeps what it had already written, because
    only the outermost transaction undoes anything. */
module Store {
  import opened Options
  import opened Values
  import opened Select

  // ---- Tables ----------------------------------------------------------------------------

  datatype Name =
    | AgentJobs | AgentRegistry | AgentJobEvents | AuditOutbox | AttemptReceipts
    | AgentExchanges | ExchangePromotions | ProjectAssignments
    | ScoreDocuments | ScoreRuns | ScoreTasks | ScoreEvents | ScoreOutbox | ScoreGrants
    | ScoreReviews | ScoreProviders | ScoreProviderHealth | ScoreRecovery | ScoreGateRequests
    | ScoreDecisions | ConductorLeases
    | Other(name: string)

  predicate AppendOnly(t: Name) {
    t.AgentJobEvents? || t.AuditOutbox? || t.AttemptReceipts? || t.ScoreEvents?
    || t.ScoreDecisions? || t.AgentExchanges? || t.ExchangePromotions?
  }

  function PkField(t: Name): string {
    match t
    case AgentRegistry => "instance_id"
    case ProjectAssignments => "job_id"
    case ScoreDocuments => "digest"
    case ScoreRuns => "run_id"
    case ScoreEvents => "seq"
    case ScoreProviders => "instance_id"
    case ScoreProviderHealth => "instance_id"
    case ScoreRecovery => "approval_or_attempt_id"
    case _ => "id"
  }

  /** The columns of the table's unique constraint; none when it has no constraint. */
  function UniqueColumns(t: Name): seq<string> {
    match t
    case ScoreTasks => ["org_id", "run_id", "task_id", "attempt"]
    case ScoreOutbox => ["org_id", "run_id", "task_id", "phase"]
    case ScoreGrants => ["org_id", "run_id", "digest"]
    case ScoreGateRequests => ["org_id", "run_id", "digest", "task_id", "kind"]
    case ScoreDecisions => ["gate_id"]
    case AgentExchanges => ["org_id", "author_instance_id", "idempotency_key"]
    case ExchangePromotions => ["org_id", "exchange_id", "target_kind"]
    case _ => []
  }

  /** A table that was never created reads as an empty one. */
  type Db = map<Name, Table>

  function RowsOf(db: Db, t: Name): Table {
    if t in db then db[t] else []
  }

  function Without(t: Table, pk: string): Table {
    if t == [] then []
    else
      var rest := Without(t[..|t| - 1], pk);
      if t[|t| - 1].pk == pk then rest else rest + [t[|t| - 1]]
  }

  /** INSERT OR REPLACE: the row takes a new rowid, so a replaced row moves to the end. */
  function Put(t: Table, pk: string, doc: Doc): Table {
    Without(t, pk) + [Row(if t == [] then 1 else t[|t| - 1].rowid + 1, pk, doc)]
  }

  function Lookup(t: Table, pk: string): Option<Doc> {
    if t == [] then None
    else if t[|t| - 1].pk == pk then Some(t[|t| - 1].doc)
    else Lookup(t[..|t| - 1], pk)
  }

  // ---- Defaults and evidence -------------------------------------------------------------

  const EVIDENCE := Str("state_committed")

  /** Columns filled in with setdefault. The cost weight 1.0 is written as the equal integer. */
  function ColumnDefaults(t: Name): Doc {
    map["org_id" := Str("default")] +
    match t
    case ScoreTasks => map["attempt" := Num(1), "status" := Str("pending"), "checkpoint_approved" := Bool(false)]
    case ScoreOutbox => map[
      "attempt" := Num(1), "status" := Str("planned"), "phase" := Str("work"), "payload" := Obj(map[])]
    case ScoreRecovery => map["decision" := Str("pending"), "uncertain_effect" := Obj(map[])]
    case ScoreGateRequests => map["status" := Str("pending")]
    case ScoreRuns => map[
      "status" := Str("pending"), "authorized_budget_cents" := Num(0), "grants" := Arr([]),
      "policy_snapshot" := Obj(map[])]
    case ScoreDocuments => map["revision" := Num(1)]
    case ScoreProviders => map[
      "independence_class" := Str("default"), "cost_weight" := Num(1), "capabilities" := Arr([]),
      "approved_digests" := Arr([]), "authority_scopes" := Arr([])]
    case _ => map[]
  }

  function ApplyDefaults(db: Db, t: Name, row: Doc, env: Env, draw: nat): Doc {
    var pk := PkField(t);
    var keyed :=
      if Truthy(Get(row, pk)) then row
      else if pk == "id" || pk == "run_id" then row[pk := Str(env.uuid(draw))]
      else if pk == "seq" then row[pk := Num(|RowsOf(db, t)| + 1)]
      else row;
    var stamp := if t.ScoreEvents? then "at" else "created_at";
    var stamped := if Truthy(Get(keyed, stamp)) then keyed else keyed[stamp := Str(env.now)];
    ColumnDefaults(t) + stamped
  }

  function DocJson(d: Option<Doc>): Json {
    if d.Some? then Obj(d.value) else Null
  }

  /** The mco_audit_outbox row that records one change of one job. */
  function Evidence(db: Db, job: Doc, operation: string, before: Json, after: Json, env: Env, draw: nat): Doc {
    ApplyDefaults(db, AuditOutbox, map[
      "job_id" := Get(job, "id"), "event" := EVIDENCE,
      "detail" := Obj(map["operation" := Str(operation), "before" := before, "after" := after]),
      "org_id" := if "org_id" in job then job["org_id"] else Str("default")
    ], env, draw)
  }

  /** The text a row is filed under: str(row[key column]). */
  function KeyText(t: Name, doc: Doc, text: Text): string {
    PyStr(Get(doc, PkField(t)), text)
  }

  function PutRow(db: Db, t: Name, pk: string, doc: Doc): Db {
    db[t := Put(RowsOf(db, t), pk, doc)]
  }

  /** _write_row; None is the KeyError of a row without its key column. */
  function WriteRow(db: Db, t: Name, row: Doc, env: Env, draw: nat): Option<Db> {
    if PkField(t) !in row then None
    else
      var pk := KeyText(t, row, env.text);
      var written := PutRow(db, t, pk, row);
      if !t.AgentJobs? then Some(written)
      else
        var before := Lookup(RowsOf(db, t), pk);
        var evidence := Evidence(written, row, if before.Some? then "UPDATE" else "INSERT",
                                 DocJson(before), Obj(row), env, draw);
        Some(PutRow(written, AuditOutbox, KeyText(AuditOutbox, evidence, env.text), evidence))
  }

  // ---- Finding rows ----------------------------------------------------------------------

  /** _find: pushed down when every filter can be, otherwise the simple form. */
  function Find(t: Table, filters: seq<Filter>, text: Text): Selected {
    if !(forall i :: 0 <= i < |filters| ==> Pushable(filters[i])) then PyFilter(t, filters)
    else if forall i :: 0 <= i < |filters| ==> FilterBinds(filters[i]) then Rows(SqlFilter(t, filters, text))
    else Overflow
  }

  function EqualTo(row: Doc, columns: seq<string>): seq<Filter> {
    seq(|columns|, i requires 0 <= i < |columns| => Eq(columns[i], Get(row, columns[i])))
  }

  predicate SameTuple(a: Doc, b: Doc, columns: seq<string>) {
    forall i :: 0 <= i < |columns| ==> PyEq(Get(a, columns[i]), Get(b, columns[i]))
  }

  predicate Blocks(other: Doc, pk: string, columns: seq<string>, row: Doc, except: Option<string>, text: Text) {
    (except.Some? ==> PyStr(Get(other, pk), text) != except.value) && SameTuple(other, row, columns)
  }

  /** Some found row, other than those keyed `except`, has the same values in `columns`. */
  predicate Taken(t: Table, pk: string, columns: seq<string>, row: Doc, except: Option<string>, text: Text) {
    var found := Find(t, EqualTo(row, columns), text);
    found.Rows? && exists r :: r in found.rows && Blocks(r.doc, pk, columns, row, except, text)
  }

  /** The row's values in `columns` are looked up in SQLite. */
  predicate Searched(row: Doc, columns: seq<string>) {
    forall i :: 0 <= i < |columns| ==> Pushable(Eq(columns[i], Get(row, columns[i])))
  }

  /** Looking them up raises: one is an integer that cannot be bound. */
  predicate TooBig(row: Doc, columns: seq<string>) {
    Searched(row, columns) && exists i :: 0 <= i < |columns| && !Binds(Get(row, columns[i]))
  }

  /** Why the duplicate-key check stops an insert, if it does. */
  function KeyRefusal(t: Name, rows: Table, row: Doc, text: Text): Option<Failure> {
    if TooBig(row, [PkField(t)]) then Some(Oversized)
    else if Taken(rows, PkField(t), [PkField(t)], row, None, text) then Some(DuplicateKey)
    else None
  }

  /** Why the unique constraint stops a write, if it does. */
  function UniqueRefusal(t: Name, rows: Table, row: Doc, except: Option<string>, text: Text): Option<Failure> {
    var columns := UniqueColumns(t);
    if columns == [] then None
    else if TooBig(row, columns) then Some(Oversized)
    else if Taken(rows, PkField(t), columns, row, except, text) then Some(DuplicateUnique)
    else None
  }

  function InsertRefusal(t: Name, rows: Table, row: Doc, text: Text): Option<Failure> {
    var key := KeyRefusal(t, rows, row, text);
    if key.Some? then key else UniqueRefusal(t, rows, row, None, text)
  }

  function FirstKeyed(rows: Table, pk: string, key: Json): Option<Doc> {
    if rows == [] then None
    else if PyEq(Get(rows[0].doc, pk), key) then Some(rows[0].doc)
    else FirstKeyed(rows[1..], pk, key)
  }

  // ---- Operations ------------------------------------------------------------------------

  datatype Op =
    | Insert(t: Name, payload: Doc)
    | Upsert(t: Name, payload: Doc)
    | Update(t: Name, filters: seq<Filter>, payload: Doc)
    | Delete(t: Name, filters: seq<Filter>)

  datatype Failure = RewritesHistory | DuplicateKey | DuplicateUnique | KeyMissing | UnlikeTypes | Oversized

  /** How far an operation has come: the database, the rows it returns, the uuids it drew for
      evidence, and the failure that stopped it. */
  datatype Progress = Progress(db: Db, rows: seq<Doc>, drawn: nat, failure: Option<Failure>)

  function Failed(p: Progress, f: Failure): Progress {
    p.(failure := Some(f))
  }

  function Written(p: Progress, t: Name, row: Doc, env: Env): Progress {
    match WriteRow(p.db, t, row, env, p.drawn)
    case None => Failed(p, KeyMissing)
    case Some(db) => Progress(db, p.rows + [row], p.drawn + 1, None)
  }

  /** Draw 0 is the row's own id, so evidence starts at draw 1. */
  function Begin(db: Db): Progress {
    Progress(db, [], 1, None)
  }

  function InsertRow(db: Db, t: Name, payload: Doc, env: Env): Progress {
    var row := ApplyDefaults(db, t, payload, env, 0);
    var refusal := InsertRefusal(t, RowsOf(db, t), row, env.text);
    if refusal.Some? then Failed(Begin(db), refusal.value) else Written(Begin(db), t, row, env)
  }

  function Existing(db: Db, t: Name, payload: Doc, text: Text): Option<Doc> {
    var key := Get(payload, PkField(t));
    if key.Null? then None
    else
      match Find(RowsOf(db, t), [Eq(PkField(t), key)], text)
      case Rows(rows) => FirstKeyed(rows, PkField(t), key)
      case _ => None
  }

  /** The row an upsert writes: the payload over the stored row, or with its defaults. */
  function UpsertDoc(db: Db, t: Name, payload: Doc, env: Env): Doc {
    var existing := Existing(db, t, payload, env.text);
    if existing.Some? then existing.value + payload else ApplyDefaults(db, t, payload, env, 0)
  }

  function UpsertRow(db: Db, t: Name, payload: Doc, env: Env): Progress {
    var row := UpsertDoc(db, t, payload, env);
    var self := KeyText(t, row, env.text);
    var refusal :=
      if TooBig(payload, [PkField(t)]) then Some(Oversized)
      else UniqueRefusal(t, RowsOf(db, t), row, Some(self), env.text);
    if refusal.Some? then Failed(Begin(db), refusal.value) else Written(Begin(db), t, row, env)
  }

  /** The server-side stamp on a job that completes. */
  function Completed(t: Name, row: Doc, env: Env): Doc {
    if t.AgentJobs? && Get(row, "status") == Str("completed") && !Truthy(Get(row, "completed_at"))
    then row["completed_at" := Str(env.now)] else row
  }

  function UpdateRow(p: Progress, t: Name, r: Row, op: Op, env: Env): Progress
    requires op.Update?
  {
    if p.failure.Some? then p
    else
      match PyMatches(r.doc, op.filters)
      case Raises => Failed(p, UnlikeTypes)
      case Miss => p
      case Hit =>
        var candidate := r.doc + op.payload;
        var self := KeyText(t, r.doc, env.text);
        var refusal := UniqueRefusal(t, RowsOf(p.db, t), candidate, Some(self), env.text);
        if refusal.Some? then Failed(p, refusal.value) else Written(p, t, Completed(t, candidate, env), env)
  }

  function UpdateRows(p: Progress, found: Table, op: Op, env: Env): Progress
    requires op.Update?
  {
    if found == [] then p
    else UpdateRow(UpdateRows(p, found[..|found| - 1], op, env), op.t, found[|found| - 1], op, env)
  }

  function DropRow(db: Db, t: Name, pk: string): Db {
    db[t := Without(RowsOf(db, t), pk)]
  }

  function DeleteRow(p: Progress, t: Name, r: Row, env: Env): Progress {
    var pk := KeyText(t, r.doc, env.text);
    var db :=
      if !t.AgentJobs? then p.db
      else
        var evidence := Evidence(p.db, r.doc, "DELETE", Obj(r.doc), Null, env, p.drawn);
        PutRow(p.db, AuditOutbox, KeyText(AuditOutbox, evidence, env.text), evidence);
    Progress(DropRow(db, t, pk), p.rows + [r.doc], p.drawn + 1, None)
  }

  function DeleteRows(p: Progress, removed: Table, t: Name, env: Env): Progress {
    if removed == [] then p
    else DeleteRow(DeleteRows(p, removed[..|removed| - 1], t, env), t, removed[|removed| - 1], env)
  }

  function Raised(error: Selected): Failure
    requires !error.Rows?
  {
    if error.TypeError? then UnlikeTypes else Oversized
  }

  /** The body of _run_once for a write. */
  function Apply(db: Db, op: Op, env: Env): Progress {
    if AppendOnly(op.t) && !op.Insert? then Failed(Begin(db), RewritesHistory)
    else
      match op
      case Insert(t, payload) => InsertRow(db, t, payload, env)
      case Upsert(t, payload) => UpsertRow(db, t, payload, env)
      case Update(t, filters, payload) =>
        (match Find(RowsOf(db, t), filters, env.text)
         case Rows(found) => UpdateRows(Begin(db), found, op, env)
         case error => Failed(Begin(db), Raised(error)))
      case Delete(t, filters) =>
        match Find(RowsOf(db, t), filters, env.text)
        case Rows(found) =>
          (match PyFilter(found, filters)
           case Rows(removed) => DeleteRows(Begin(db), removed, t, env)
           case error => Failed(Begin(db), Raised(error)))
        case error => Failed(Begin(db), Raised(error))
  }
}
