/** The evidence log: replaying the `state_committed` rows gives back the job table. */
module Ledger {
  import opened Options
  import opened Values
  import opened Select
  import opened Store
  import opened StoreLaws

  datatype Job = Job(pk: string, doc: Doc)

  function Image(t: Table): seq<Job> {
    if t == [] then [] else Image(t[..|t| - 1]) + [Job(t[|t| - 1].pk, t[|t| - 1].doc)]
  }

  function DropJob(jobs: seq<Job>, pk: string): seq<Job> {
    if jobs == [] then []
    else
      var rest := DropJob(jobs[..|jobs| - 1], pk);
      if jobs[|jobs| - 1].pk == pk then rest else rest + [jobs[|jobs| - 1]]
  }

  predicate IsEvidence(doc: Doc) {
    Get(doc, "event") == EVIDENCE
  }

  /** The evidence documents in the order they were written. */
  function Log(outbox: Table): seq<Doc> {
    if outbox == [] then []
    else
      var earlier := Log(outbox[..|outbox| - 1]);
      if IsEvidence(outbox[|outbox| - 1].doc) then earlier + [outbox[|outbox| - 1].doc] else earlier
  }

  function Detail(e: Doc, field: string): Json {
    var detail := Get(e, "detail");
    if detail.Obj? then Get(detail.fields, field) else Null
  }

  function JobKey(e: Doc, text: Text): string {
    PyStr(Get(e, "job_id"), text)
  }

  function Replay(log: seq<Doc>, text: Text): seq<Job> {
    if log == [] then []
    else
      var e := log[|log| - 1];
      var others := DropJob(Replay(log[..|log| - 1], text), JobKey(e, text));
      match Detail(e, "after")
      case Obj(doc) => others + [Job(JobKey(e, text), doc)]
      case _ => others
  }

  /** The state the log last recorded for a job. */
  function LastAfter(log: seq<Doc>, pk: string, text: Text): Json {
    if log == [] then Null
    else if JobKey(log[|log| - 1], text) == pk then Detail(log[|log| - 1], "after")
    else LastAfter(log[..|log| - 1], pk, text)
  }

  /** Each entry's `before` is the last `after` recorded for its job, or None. */
  ghost predicate Chained(log: seq<Doc>, text: Text) {
    forall i :: 0 <= i < |log| ==>
      Detail(log[i], "before") == LastAfter(log[..i], JobKey(log[i], text), text)
      && (Detail(log[i], "after").Null? || Detail(log[i], "after").Obj?)
  }

  ghost predicate InStep(jobs: Table, outbox: Table, text: Text) {
    Replay(Log(outbox), text) == Image(jobs) && Chained(Log(outbox), text)
  }

  ghost predicate LedgerOk(db: Db, text: Text) {
    InStep(RowsOf(db, AgentJobs), RowsOf(db, AuditOutbox), text)
  }

  // ---- Images of tables ------------------------------------------------------------------

  lemma ImageAppend(t: Table, r: Row)
    ensures Image(t + [r]) == Image(t) + [Job(r.pk, r.doc)]
  {
    assert (t + [r])[..|t|] == t;
  }

  lemma ReplayAppend(log: seq<Doc>, e: Doc, text: Text)
    ensures Replay(log + [e], text)
         == DropJob(Replay(log, text), JobKey(e, text))
            + (if Detail(e, "after").Obj? then [Job(JobKey(e, text), Detail(e, "after").fields)] else [])
  {
    assert (log + [e])[..|log|] == log;
  }

  lemma {:induction false} ImageWithout(t: Table, pk: string)
    ensures Image(Without(t, pk)) == DropJob(Image(t), pk)
  {
    if t != [] {
      ImageWithout(t[..|t| - 1], pk);
      if t[|t| - 1].pk != pk {
        ImageAppend(Without(t[..|t| - 1], pk), t[|t| - 1]);
      }
      assert Image(t)[..|Image(t)| - 1] == Image(t[..|t| - 1]);
    }
  }

  lemma {:induction false} ImageLookup(t: Table, pk: string, log: seq<Doc>, text: Text)
    requires Replay(log, text) == Image(t) && Chained(log, text)
    ensures DocJson(Lookup(t, pk)) == LastAfter(log, pk, text)
  {
    LookupImage(t, pk);
    ReplayLookup(log, pk, text);
  }

  function LookupJob(jobs: seq<Job>, pk: string): Json {
    if jobs == [] then Null
    else if jobs[|jobs| - 1].pk == pk then Obj(jobs[|jobs| - 1].doc)
    else LookupJob(jobs[..|jobs| - 1], pk)
  }

  lemma {:induction false} LookupImage(t: Table, pk: string)
    ensures LookupJob(Image(t), pk) == DocJson(Lookup(t, pk))
  {
    if t != [] {
      LookupImage(t[..|t| - 1], pk);
    }
  }

  lemma {:induction false} LookupDropped(jobs: seq<Job>, dropped: string, pk: string)
    ensures LookupJob(DropJob(jobs, dropped), pk) == if pk == dropped then Null else LookupJob(jobs, pk)
  {
    if jobs != [] {
      LookupDropped(jobs[..|jobs| - 1], dropped, pk);
      var rest := DropJob(jobs[..|jobs| - 1], dropped);
      assert (rest + [jobs[|jobs| - 1]])[..|rest|] == rest;
    }
  }

  lemma {:induction false} ReplayLookup(log: seq<Doc>, pk: string, text: Text)
    requires Chained(log, text)
    ensures LookupJob(Replay(log, text), pk) == LastAfter(log, pk, text)
  {
    if log != [] {
      var front, e := log[..|log| - 1], log[|log| - 1];
      assert forall i :: 0 <= i < |front| ==> front[..i] == log[..i];
      ReplayLookup(front, pk, text);
      LookupDropped(Replay(front, text), JobKey(e, text), pk);
    }
  }

  // ---- One evidence row at a time --------------------------------------------------------

  lemma EvidenceFields(db: Db, job: Doc, operation: string, before: Json, after: Json, env: Env, draw: nat)
    ensures
      var e := Evidence(db, job, operation, before, after, env, draw);
      IsEvidence(e) && Get(e, "job_id") == Get(job, "id")
      && Detail(e, "before") == before && Detail(e, "after") == after
      && Get(e, "id") == Str(env.uuid(draw)) && Keyed(AuditOutbox, env.uuid(draw), e, env.text)
  {
  }

  /** The draws are texts without a NUL, and those not yet used are distinct and name no row of the
      outbox. */
  ghost predicate FreshFor(env: Env, outbox: Table, from: nat) {
    (forall i :: Plain(env.uuid(i)))
    && (forall i, j :: from <= i < j ==> env.uuid(i) != env.uuid(j))
    && (forall r, j :: r in outbox && from <= j ==> r.pk != env.uuid(j))
  }

  ghost predicate Fresh(env: Env, db: Db, from: nat) {
    FreshFor(env, RowsOf(db, AuditOutbox), from)
  }

  /** Everything but the outbox and `t` is as before, and the outbox only grew. */
  ghost predicate OnlyGrows(db: Db, db': Db, t: Name) {
    RowsOf(db, AuditOutbox) <= RowsOf(db', AuditOutbox)
    && (forall r :: r in RowsOf(db', AuditOutbox) ==> r in RowsOf(db, AuditOutbox) || Get(r.doc, "id").Str?)
    && forall n :: n != AuditOutbox && n != t ==> RowsOf(db', n) == RowsOf(db, n)
  }

  lemma AppendEvidence(outbox: Table, e: Doc, env: Env, draw: nat)
    requires FreshFor(env, outbox, draw) && IsEvidence(e)
    ensures
      var outbox' := Put(outbox, env.uuid(draw), e);
      outbox <= outbox' && (forall r :: r in outbox' ==> r in outbox || r.doc == e)
      && FreshFor(env, outbox', draw + 1) && Log(outbox') == Log(outbox) + [e]
  {
    WithoutNothing(outbox, env.uuid(draw));
    LogAppend(outbox, Row(NextRowid(outbox), env.uuid(draw), e));
  }

  lemma LogAppend(outbox: Table, r: Row)
    ensures Log(outbox + [r]) == Log(outbox) + if IsEvidence(r.doc) then [r.doc] else []
  {
    assert (outbox + [r])[..|outbox|] == outbox;
  }

  lemma ChainGrows(log: seq<Doc>, e: Doc, text: Text)
    requires Chained(log, text)
    requires Detail(e, "before") == LastAfter(log, JobKey(e, text), text)
    requires Detail(e, "after").Null? || Detail(e, "after").Obj?
    ensures Chained(log + [e], text)
  {
    var grown := log + [e];
    forall i | 0 <= i < |grown|
      ensures Detail(grown[i], "before") == LastAfter(grown[..i], JobKey(grown[i], text), text)
    {
      if i < |log| {
        assert grown[..i] == log[..i];
      } else {
        assert grown[..i] == log;
      }
    }
  }

  /** Job and evidence rows written together keep the ledger: `jobs` becomes `jobs2` as the entry says. */
  lemma EntryKeepsLedger(jobs: Table, jobs2: Table, log: seq<Doc>, e: Doc, text: Text)
    requires Replay(log, text) == Image(jobs) && Chained(log, text)
    requires Detail(e, "before") == DocJson(Lookup(jobs, JobKey(e, text)))
    requires var after := Detail(e, "after");
      (after.Null? && jobs2 == Without(jobs, JobKey(e, text)))
      || (after.Obj? && jobs2 == Put(jobs, JobKey(e, text), after.fields))
    ensures Replay(log + [e], text) == Image(jobs2) && Chained(log + [e], text)
  {
    var pk := JobKey(e, text);
    ImageLookup(jobs, pk, log, text);
    ChainGrows(log, e, text);
    ReplayAppend(log, e, text);
    ImageWithout(jobs, pk);
    if Detail(e, "after").Obj? {
      ImageAppend(Without(jobs, pk), jobs2[|jobs2| - 1]);
    }
  }

  /** Entry `e` records a change of the job filed under `pk`. */
  ghost predicate Describes(e: Doc, pk: string, before: Json, after: Json, id: string, text: Text) {
    IsEvidence(e) && JobKey(e, text) == pk && Detail(e, "before") == before && Detail(e, "after") == after
    && Get(e, "id").Str? && Keyed(AuditOutbox, id, e, text)
  }

  lemma RecordEntry(jobs: Table, jobs2: Table, outbox: Table, e: Doc, env: Env, draw: nat)
    requires InStep(jobs, outbox, env.text) && FreshFor(env, outbox, draw) && IsEvidence(e)
    requires Detail(e, "before") == DocJson(Lookup(jobs, JobKey(e, env.text)))
    requires var after := Detail(e, "after");
      (after.Null? && jobs2 == Without(jobs, JobKey(e, env.text)))
      || (after.Obj? && jobs2 == Put(jobs, JobKey(e, env.text), after.fields))
    ensures InStep(jobs2, Put(outbox, env.uuid(draw), e), env.text)
  {
    AppendEvidence(outbox, e, env, draw);
    EntryKeepsLedger(jobs, jobs2, Log(outbox), e, env.text);
  }

  /** The outbox after the two writes holds the old rows, then the entry. */
  lemma RecordGrows(db: Db, db': Db, t: Name, e: Doc, env: Env, draw: nat)
    requires Fresh(env, db, draw) && IsEvidence(e) && Get(e, "id").Str?
    requires RowsOf(db', AuditOutbox) == Put(RowsOf(db, AuditOutbox), env.uuid(draw), e)
    requires forall n :: n != AuditOutbox && n != t ==> RowsOf(db', n) == RowsOf(db, n)
    ensures Fresh(env, db', draw + 1) && OnlyGrows(db, db', t)
  {
    AppendEvidence(RowsOf(db, AuditOutbox), e, env, draw);
  }

  lemma JobAndEntryOk(db: Db, pk: string, row: Doc, id: string, e: Doc, text: Text)
    requires DbOk(db, text) && Keyed(AgentJobs, pk, row, text) && Keyed(AuditOutbox, id, e, text)
    ensures DbOk(PutRow(PutRow(db, AgentJobs, pk, row), AuditOutbox, id, e), text)
  {
    PutRowOk(db, AgentJobs, pk, row, text);
    PutRowOk(PutRow(db, AgentJobs, pk, row), AuditOutbox, id, e, text);
  }

  lemma JobAndEntryInStep(db: Db, pk: string, row: Doc, e: Doc, env: Env, draw: nat)
    requires LedgerOk(db, env.text) && Fresh(env, db, draw)
    requires Describes(e, pk, DocJson(Lookup(RowsOf(db, AgentJobs), pk)), Obj(row), env.uuid(draw), env.text)
    ensures
      var db' := PutRow(PutRow(db, AgentJobs, pk, row), AuditOutbox, env.uuid(draw), e);
      LedgerOk(db', env.text) && Fresh(env, db', draw + 1) && OnlyGrows(db, db', AgentJobs)
  {
    var jobs := RowsOf(db, AgentJobs);
    RecordEntry(jobs, Put(jobs, pk, row), RowsOf(db, AuditOutbox), e, env, draw);
    RecordGrows(db, PutRow(PutRow(db, AgentJobs, pk, row), AuditOutbox, env.uuid(draw), e), AgentJobs, e, env, draw);
  }

  lemma EntryAndDropOk(db: Db, pk: string, id: string, e: Doc, text: Text)
    requires DbOk(db, text) && Keyed(AuditOutbox, id, e, text)
    ensures DbOk(DropRow(PutRow(db, AuditOutbox, id, e), AgentJobs, pk), text)
  {
    PutRowOk(db, AuditOutbox, id, e, text);
    DropRowOk(PutRow(db, AuditOutbox, id, e), AgentJobs, pk, text);
  }

  lemma EntryAndDropInStep(db: Db, r: Row, e: Doc, env: Env, draw: nat)
    requires LedgerOk(db, env.text) && Fresh(env, db, draw)
    requires DistinctPks(RowsOf(db, AgentJobs)) && r in RowsOf(db, AgentJobs)
    requires Describes(e, r.pk, Obj(r.doc), Null, env.uuid(draw), env.text)
    ensures
      var db' := DropRow(PutRow(db, AuditOutbox, env.uuid(draw), e), AgentJobs, r.pk);
      LedgerOk(db', env.text) && Fresh(env, db', draw + 1) && OnlyGrows(db, db', AgentJobs)
  {
    DropInStep(db, r, e, env, draw);
    RecordGrows(db, DropRow(PutRow(db, AuditOutbox, env.uuid(draw), e), AgentJobs, r.pk), AgentJobs, e, env, draw);
  }

  lemma DropInStep(db: Db, r: Row, e: Doc, env: Env, draw: nat)
    requires LedgerOk(db, env.text) && FreshFor(env, RowsOf(db, AuditOutbox), draw)
    requires DistinctPks(RowsOf(db, AgentJobs)) && r in RowsOf(db, AgentJobs)
    requires Describes(e, r.pk, Obj(r.doc), Null, env.uuid(draw), env.text)
    ensures LedgerOk(DropRow(PutRow(db, AuditOutbox, env.uuid(draw), e), AgentJobs, r.pk), env.text)
  {
    var jobs := RowsOf(db, AgentJobs);
    LookupMember(jobs, r);
    RecordEntry(jobs, Without(jobs, r.pk), RowsOf(db, AuditOutbox), e, env, draw);
  }

  /** Writing a job and its evidence keeps the log and the table in step. */
  lemma WriteJobKeepsLedger(db: Db, row: Doc, env: Env, draw: nat)
    requires DbOk(db, env.text) && LedgerOk(db, env.text) && Fresh(env, db, draw) && "id" in row
    ensures
      var db' := WriteRow(db, AgentJobs, row, env, draw).value;
      DbOk(db', env.text) && LedgerOk(db', env.text) && Fresh(env, db', draw + 1) && OnlyGrows(db, db', AgentJobs)
  {
    var pk := KeyText(AgentJobs, row, env.text);
    var before := Lookup(RowsOf(db, AgentJobs), pk);
    var written := PutRow(db, AgentJobs, pk, row);
    var operation := if before.Some? then "UPDATE" else "INSERT";
    EvidenceFields(written, row, operation, DocJson(before), Obj(row), env, draw);
    var e := Evidence(written, row, operation, DocJson(before), Obj(row), env, draw);
    JobAndEntryOk(db, pk, row, env.uuid(draw), e, env.text);
    JobAndEntryInStep(db, pk, row, e, env, draw);
  }

  /** Deleting a stored job after recording it keeps the log and the table in step. */
  lemma DeleteJobKeepsLedger(p: Progress, r: Row, env: Env)
    requires DbOk(p.db, env.text) && LedgerOk(p.db, env.text) && Fresh(env, p.db, p.drawn)
    requires r in RowsOf(p.db, AgentJobs)
    ensures
      var db' := DeleteRow(p, AgentJobs, r, env).db;
      DbOk(db', env.text) && LedgerOk(db', env.text) && Fresh(env, db', p.drawn + 1) && OnlyGrows(p.db, db', AgentJobs)
  {
    assert TableOk(RowsOf(p.db, AgentJobs), AgentJobs, env.text);
    assert Keyed(AgentJobs, r.pk, r.doc, env.text);
    EvidenceFields(p.db, r.doc, "DELETE", Obj(r.doc), Null, env, p.drawn);
    var e := Evidence(p.db, r.doc, "DELETE", Obj(r.doc), Null, env, p.drawn);
    EntryAndDropOk(p.db, r.pk, env.uuid(p.drawn), e, env.text);
    EntryAndDropInStep(p.db, r, e, env, p.drawn);
  }

  lemma {:induction false} LookupMember(t: Table, r: Row)
    requires DistinctPks(t) && r in t
    ensures Lookup(t, r.pk) == Some(r.doc)
  {
    var i :| 0 <= i < |t| && t[i] == r;
    if i < |t| - 1 {
      assert t[..|t| - 1][i] == r;
      LookupMember(t[..|t| - 1], r);
    }
  }
}
