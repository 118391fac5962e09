/** The embedded store as an object: the lock, the nesting depth, and the two sides of its SQLite
    file, changed in place by the context manager, the row loops and the retry loop. */
module LocalStore {
  import opened Options
  import opened Values
  import opened Select
  import opened Store
  import opened Transactions

  /** What SQLite does to one attempt: nothing, "database is locked" at one of three places, or
      another error. An error inside the body leaves whatever was written by then. */
  datatype Fault = Clear | LockedAtBegin | LockedInside(partial: Db) | LockedAtCommit | Broken(partial: Db)

  const MAX_ATTEMPTS: nat := 8

  /** A nested block issues neither BEGIN nor COMMIT, so it cannot be refused there. */
  function Met(f: Fault, outer: bool): Fault {
    if !outer && (f.LockedAtBegin? || f.LockedAtCommit?) then Clear else f
  }

  /** Every attempt before the k-th met a locked database. */
  ghost predicate LockedBefore(faults: nat -> Fault, k: nat, outer: bool) {
    forall i: nat :: i < k ==> !Met(faults(i), outer).Clear? && !Met(faults(i), outer).Broken?
  }

  /** SQLite refuses before the first write of an attempt, as its write lock does. */
  ghost predicate RefusesEarly(faults: nat -> Fault, working: Db) {
    forall i: nat :: i < 8 && (faults(i).LockedInside? || faults(i).Broken?) ==> faults(i).partial == working
  }

  lemma {:induction false} UpdateStopped(p: Progress, found: Table, n: nat, op: Op, env: Env)
    requires n <= |found| && op.Update? && UpdateRows(p, found[..n], op, env).failure.Some?
    ensures UpdateRows(p, found, op, env) == UpdateRows(p, found[..n], op, env)
  {
    if n == |found| {
      assert found[..n] == found;
    } else {
      var front := found[..|found| - 1];
      assert front[..n] == found[..n];
      UpdateStopped(p, front, n, op, env);
    }
  }

  class LocalStore {
    var committed: Db
    var working: Db
    var depth: nat
    var owner: Option<Thread>
    var mine: map<Thread, nat>

    function Now(): State
      reads this
    {
      State(committed, working, depth, owner, mine)
    }

    constructor (stored: Db)
      ensures Now() == State(stored, stored, 0, None, map[]) && Locked(Now())
    {
      committed, working, depth, owner, mine := stored, stored, 0, None, map[];
    }

    // ---- transaction() -------------------------------------------------------------------

    /** Entering the context manager, once the lock has been acquired. */
    method Enter(th: Thread)
      requires Enabled(Now(), Event.Enter(th))
      modifies this
      ensures Now() == Step(old(Now()), Event.Enter(th))
    {
      owner := Some(th);
      if depth == 0 {
        working := committed;
      }
      depth := depth + 1;
      mine := mine[th := (if th in mine then mine[th] else 0) + 1];
    }

    /** Leaving it: only the outermost level commits or rolls back. */
    method Leave(th: Thread, ok: bool)
      requires Locked(Now()) && owner == Some(th)
      modifies this
      ensures Now() == Step(old(Now()), Event.Leave(th, ok)) && Locked(Now())
    {
      assert Mine(Now(), th) == depth;
      var outer := depth == 1;
      if outer {
        if ok {
          committed := working;
        } else {
          working := committed;
        }
      }
      depth := depth - 1;
      mine := mine[th := mine[th] - 1];
      if depth == 0 {
        owner := None;
      }
      StepLocked(old(Now()), Event.Leave(th, ok));
    }

    /** _read_connection: which side of the file a thread's queries read. */
    method ReadConnection(th: Thread) returns (db: Db)
      ensures db == View(Now(), th)
    {
      var own := if th in mine then mine[th] else 0;
      db := if own > 0 then working else committed;
    }

    // ---- Writes --------------------------------------------------------------------------

    /** INSERT OR REPLACE */
    method Replace(t: Name, pk: string, doc: Doc)
      modifies this`working
      ensures working == PutRow(old(working), t, pk, doc)
    {
      var kept: Table, rows, i := [], RowsOf(working, t), 0;
      while i < |rows|
        invariant 0 <= i <= |rows| && kept == Without(rows[..i], pk) && working == old(working)
      {
        assert rows[..i + 1][..i] == rows[..i];
        if rows[i].pk != pk {
          kept := kept + [rows[i]];
        }
        i := i + 1;
      }
      assert rows[..i] == rows;
      var rowid := if rows == [] then 1 else rows[|rows| - 1].rowid + 1;
      working := working[t := kept + [Row(rowid, pk, doc)]];
    }

    /** DELETE FROM ... WHERE pk = ? */
    method DeleteKey(t: Name, pk: string)
      modifies this`working
      ensures working == DropRow(old(working), t, pk)
    {
      working := working[t := Without(RowsOf(working, t), pk)];
    }

    /** _write_row; false is the KeyError of a row without its key column. */
    method WriteOne(t: Name, row: Doc, env: Env, draw: nat) returns (ok: bool)
      modifies this`working
      ensures
        var after := WriteRow(old(working), t, row, env, draw);
        ok == after.Some? && working == if ok then after.value else old(working)
    {
      if PkField(t) !in row {
        return false;
      }
      var pk := KeyText(t, row, env.text);
      var before: Option<Doc> := None;
      if t.AgentJobs? {
        before := Lookup(RowsOf(working, t), pk);
      }
      Replace(t, pk, row);
      if t.AgentJobs? {
        var operation := if before.Some? then "UPDATE" else "INSERT";
        var evidence := Evidence(working, row, operation, DocJson(before), Obj(row), env, draw);
        Replace(AuditOutbox, KeyText(AuditOutbox, evidence, env.text), evidence);
      }
      return true;
    }

    /** The row the operation ends with, written or refused for its missing key. */
    method StoreRow(t: Name, row: Doc, env: Env) returns (p: Progress)
      modifies this`working
      ensures p == Written(Begin(old(working)), t, row, env) && working == p.db
    {
      p := Begin(working);
      var ok := WriteOne(t, row, env, 1);
      p := if ok then Progress(working, [row], 2, None) else Failed(p, KeyMissing);
    }

    /** The duplicate-key check, then the unique constraint. */
    method CheckInsert(t: Name, row: Doc, env: Env) returns (refusal: Option<Failure>)
      ensures refusal == InsertRefusal(t, RowsOf(working, t), row, env.text)
    {
      refusal := KeyRefusal(t, RowsOf(working, t), row, env.text);
      if refusal.None? {
        refusal := UniqueRefusal(t, RowsOf(working, t), row, None, env.text);
      }
    }

    method InsertOne(t: Name, payload: Doc, env: Env) returns (p: Progress)
      modifies this`working
      ensures p == InsertRow(old(working), t, payload, env) && working == p.db
    {
      p := Begin(working);
      var row := ApplyDefaults(working, t, payload, env, 0);
      var refusal := CheckInsert(t, row, env);
      if refusal.Some? {
        return Failed(p, refusal.value);
      }
      p := StoreRow(t, row, env);
    }

    method FindExisting(t: Name, payload: Doc, env: Env) returns (existing: Option<Doc>)
      ensures existing == Existing(working, t, payload, env.text)
    {
      var pk := PkField(t);
      var key := Get(payload, pk);
      existing := None;
      if !key.Null? {
        var found := Find(RowsOf(working, t), [Eq(pk, key)], env.text);
        if found.Rows? {
          var i := 0;
          while i < |found.rows|
            invariant 0 <= i <= |found.rows|
            invariant FirstKeyed(found.rows, pk, key) == FirstKeyed(found.rows[i..], pk, key)
          {
            if PyEq(Get(found.rows[i].doc, pk), key) {
              return Some(found.rows[i].doc);
            }
            i := i + 1;
          }
        }
      }
    }

    method UpsertOne(t: Name, payload: Doc, env: Env) returns (p: Progress)
      modifies this`working
      ensures p == UpsertRow(old(working), t, payload, env) && working == p.db
    {
      p := Begin(working);
      if TooBig(payload, [PkField(t)]) {
        return Failed(p, Oversized);
      }
      var existing := FindExisting(t, payload, env);
      var row := if existing.Some? then existing.value + payload else ApplyDefaults(working, t, payload, env, 0);
      var refusal := UniqueRefusal(t, RowsOf(working, t), row, Some(KeyText(t, row, env.text)), env.text);
      if refusal.Some? {
        return Failed(p, refusal.value);
      }
      p := StoreRow(t, row, env);
    }

    /** One row of the update loop. */
    method UpdateOne(r: Row, op: Op, updated: seq<Doc>, drawn: nat, env: Env) returns (p: Progress)
      requires op.Update?
      modifies this`working
      ensures p == UpdateRow(Progress(old(working), updated, drawn, None), op.t, r, op, env) && working == p.db
    {
      var t, verdict := op.t, PyMatches(r.doc, op.filters);
      if verdict.Raises? {
        return Progress(working, updated, drawn, Some(UnlikeTypes));
      }
      if verdict.Miss? {
        return Progress(working, updated, drawn, None);
      }
      var row := r.doc + op.payload;
      var refusal := UniqueRefusal(t, RowsOf(working, t), row, Some(KeyText(t, r.doc, env.text)), env.text);
      if refusal.Some? {
        return Progress(working, updated, drawn, refusal);
      }
      row := Completed(t, row, env);
      var ok := WriteOne(t, row, env, drawn);
      p := if ok then Progress(working, updated + [row], drawn + 1, None)
           else Progress(working, updated, drawn, Some(KeyMissing));
    }

    /** The update loop: each row is checked against the table as the earlier rows left it. */
    method UpdateFound(found: Table, op: Op, env: Env) returns (p: Progress)
      requires op.Update?
      modifies this`working
      ensures p == UpdateRows(Begin(old(working)), found, op, env) && working == p.db
    {
      ghost var start := Begin(working);
      p := Begin(working);
      var i := 0;
      while i < |found|
        invariant 0 <= i <= |found| && p.failure.None? && working == p.db
        invariant p == UpdateRows(start, found[..i], op, env)
      {
        assert found[..i + 1][..i] == found[..i];
        p := UpdateOne(found[i], op, p.rows, p.drawn, env);
        i := i + 1;
        if p.failure.Some? {
          UpdateStopped(start, found, i, op, env);
          return;
        }
      }
      assert found[..i] == found;
    }

    /** One row of the delete loop: evidence first, then the row. */
    method DeleteOne(r: Row, t: Name, ghost docs: seq<Doc>, drawn: nat, env: Env)
      modifies this`working
      ensures DeleteRow(Progress(old(working), docs, drawn, None), t, r, env)
        == Progress(working, docs + [r.doc], drawn + 1, None)
    {
      if t.AgentJobs? {
        var evidence := Evidence(working, r.doc, "DELETE", Obj(r.doc), Null, env, drawn);
        Replace(AuditOutbox, KeyText(AuditOutbox, evidence, env.text), evidence);
      }
      DeleteKey(t, KeyText(t, r.doc, env.text));
    }

    /** The delete loop. */
    method DeleteRemoved(removed: Table, t: Name, env: Env) returns (p: Progress)
      modifies this`working
      ensures p == DeleteRows(Begin(old(working)), removed, t, env) && working == p.db
    {
      ghost var start := Begin(working);
      var docs: seq<Doc>, drawn, i := [], 1, 0;
      while i < |removed|
        invariant 0 <= i <= |removed|
        invariant Progress(working, docs, drawn, None) == DeleteRows(start, removed[..i], t, env)
      {
        assert removed[..i + 1][..i] == removed[..i];
        DeleteOne(removed[i], t, docs, drawn, env);
        docs, drawn := docs + [removed[i].doc], drawn + 1;
        i := i + 1;
      }
      assert removed[..i] == removed;
      p := Progress(working, docs, drawn, None);
    }

    /** The body of _run_once for a write. */
    method Body(op: Op, env: Env) returns (p: Progress)
      modifies this`working
      ensures p == Apply(old(working), op, env) && working == p.db
    {
      if AppendOnly(op.t) && !op.Insert? {
        return Failed(Begin(working), RewritesHistory);
      }
      match op
      case Insert(t, payload) => p := InsertOne(t, payload, env);
      case Upsert(t, payload) => p := UpsertOne(t, payload, env);
      case Update(t, filters, _) =>
        var found := Find(RowsOf(working, t), filters, env.text);
        if !found.Rows? {
          return Failed(Begin(working), Raised(found));
        }
        p := UpdateFound(found.rows, op, env);
      case Delete(t, filters) =>
        var found := Find(RowsOf(working, t), filters, env.text);
        if !found.Rows? {
          return Failed(Begin(working), Raised(found));
        }
        var removed := PyFilter(found.rows, filters);
        if !removed.Rows? {
          return Failed(Begin(working), Raised(removed));
        }
        p := DeleteRemoved(removed.rows, t, env);
    }

    /** One query in its own transaction, which is a nested one when the thread already has a block. */
    method RunOnce(th: Thread, op: Op, env: Env) returns (p: Progress)
      requires Locked(Now()) && Enabled(Now(), Event.Enter(th))
      modifies this
      ensures p == Apply(old(working), op, env) && Locked(Now())
      ensures Now() == Run(old(Now()), [Event.Enter(th), Write(th, op, env), Event.Leave(th, p.failure.None?)])
      ensures depth == old(depth) && owner == old(owner)
      ensures committed == if depth == 0 && p.failure.None? then p.db else old(committed)
      ensures depth > 0 ==> working == p.db
    {
      ghost var s := Now();
      StepLocked(s, Event.Enter(th));
      Enter(th);
      p := Body(op, env);
      Leave(th, p.failure.None?);
      RunThree(s, Event.Enter(th), Write(th, op, env), Event.Leave(th, p.failure.None?));
    }

    /** An attempt that SQLite refuses: the block is entered, writes what it writes, and raises. */
    method Refused(th: Thread, partial: Db)
      requires Locked(Now()) && Enabled(Now(), Event.Enter(th))
      modifies this
      ensures Locked(Now()) && depth == old(depth) && owner == old(owner) && committed == old(committed)
      ensures working == if old(depth) == 0 then old(committed) else partial
    {
      StepLocked(Now(), Event.Enter(th));
      Enter(th);
      working := partial;
      Leave(th, false);
    }

    /** An outermost attempt whose COMMIT is refused; an error of the operation itself comes first. */
    method CommitRefused(th: Thread, op: Op, env: Env) returns (p: Progress)
      requires Locked(Now()) && Enabled(Now(), Event.Enter(th)) && depth == 0
      modifies this
      ensures p == Apply(old(working), op, env)
      ensures Locked(Now()) && depth == 0 && owner == old(owner) && committed == working == old(committed)
    {
      StepLocked(Now(), Event.Enter(th));
      Enter(th);
      p := Body(op, env);
      Leave(th, false);
    }

    // ---- _run ----------------------------------------------------------------------------

    /** The bounded retry; `None` is the OperationalError that ends it, and `last` the attempt it
        ended at. At the outermost level one attempt's effect is committed whole, or nothing is.
        Inside a block the same holds of the uncommitted data, as long as SQLite refuses before
        the first write. */
    method Execute(th: Thread, op: Op, envs: nat -> Env, faults: nat -> Fault)
      returns (p: Option<Progress>, ghost last: nat)
      requires Locked(Now()) && Enabled(Now(), Event.Enter(th))
      modifies this
      ensures Locked(Now()) && depth == old(depth) && owner == old(owner)
      ensures last <= 8 && LockedBefore(faults, last, depth == 0)
      ensures p.None? ==> last == 8 || Met(faults(last), depth == 0).Broken?
      ensures p.Some? && (depth == 0 || RefusesEarly(faults, old(working))) ==>
        last < 8 && p.value == Apply(old(working), op, envs(last))
      ensures committed ==
        if depth == 0 && p.Some? && p.value.failure.None? then p.value.db else old(committed)
      ensures depth > 0 && RefusesEarly(faults, old(working)) ==>
        working == if p.Some? then p.value.db else old(working)
    {
      ghost var start := Now();
      p, last := None, 0;
      var attempt, outer := 0, depth == 0;
      while attempt < MAX_ATTEMPTS
        invariant 0 <= attempt <= MAX_ATTEMPTS && last == attempt && p.None?
        invariant LockedBefore(faults, attempt, outer)
        invariant Locked(Now()) && depth == start.depth && owner == start.owner && committed == start.committed
        invariant outer || RefusesEarly(faults, start.working) ==> working == start.working
      {
        var retry;
        p, retry := Attempt(th, op, envs(attempt), Met(faults(attempt), outer));
        if !retry {
          return;
        }
        attempt, last := attempt + 1, last + 1;
      }
    }

    /** One pass of the loop: a result, an error to raise, or another try. */
    method Attempt(th: Thread, op: Op, env: Env, fault: Fault) returns (p: Option<Progress>, retry: bool)
      requires Locked(Now()) && Enabled(Now(), Event.Enter(th)) && Met(fault, depth == 0) == fault
      modifies this
      ensures Locked(Now()) && depth == old(depth) && owner == old(owner)
      ensures retry ==> p.None? && !fault.Clear? && !fault.Broken?
      ensures !retry && p.None? ==> fault.Broken?
      ensures p.Some? ==> p.value == Apply(old(working), op, env)
      ensures committed ==
        if depth == 0 && p.Some? && p.value.failure.None? then p.value.db else old(committed)
      ensures depth > 0 && p.Some? ==> working == p.value.db
      ensures depth > 0 && p.None? ==> (fault.LockedInside? || fault.Broken?) && working == fault.partial
    {
      p, retry := None, fault.LockedAtBegin? || fault.LockedInside?;
      match fault
      case LockedAtBegin =>
      case LockedInside(partial) => Refused(th, partial);
      case Broken(partial) => Refused(th, partial);
      case Clear =>
        var done := RunOnce(th, op, env);
        p := Some(done);
      case LockedAtCommit =>
        var done := CommitRefused(th, op, env);
        if done.failure.Some? { p := Some(done); } else { retry := true; }
    }
  }
}
