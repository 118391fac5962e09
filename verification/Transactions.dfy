/** Nested transactions over whole runs. The lock is re-entrant, only the outermost block talks to
    SQLite, and there are no savepoints: an inner block that fails undoes nothing by itself. */
module Transactions {
  import opened Options
  import opened Values
  import opened Select
  import opened Store
  import opened Ledger
  import opened History
  import opened Constraints

  type Thread = nat

  /** `mine` is the thread-local depth; a thread that never opened a block has none. */
  datatype State = State(committed: Db, working: Db, depth: nat, owner: Option<Thread>, mine: map<Thread, nat>)

  function Mine(s: State, th: Thread): nat {
    if th in s.mine then s.mine[th] else 0
  }

  /** _read_connection: inside its own block a thread reads the writer's connection. */
  function View(s: State, th: Thread): Db {
    if Mine(s, th) > 0 then s.working else s.committed
  }

  datatype Event =
    | Enter(th: Thread)
    | Write(th: Thread, op: Op, env: Env)
    | Leave(th: Thread, ok: bool)

  /** The lock admits a thread when it is free or already that thread's. */
  predicate Enabled(s: State, e: Event) {
    match e
    case Enter(th) => s.owner == None || s.owner == Some(th)
    case Write(th, _, _) => s.owner == Some(th)
    case Leave(th, _) => s.owner == Some(th)
  }

  function Step(s: State, e: Event): State {
    match e
    case Enter(th) =>
      State(s.committed, if s.depth == 0 then s.committed else s.working, s.depth + 1, Some(th),
            s.mine[th := Mine(s, th) + 1])
    case Write(th, op, env) => s.(working := Apply(s.working, op, env).db)
    case Leave(th, ok) =>
      if s.depth > 1 then s.(depth := s.depth - 1, mine := s.mine[th := if Mine(s, th) > 0 then Mine(s, th) - 1 else 0])
      else
        var kept := if ok then s.working else s.committed;
        State(kept, kept, 0, None, s.mine[th := if Mine(s, th) > 0 then Mine(s, th) - 1 else 0])
  }

  function Run(s: State, trace: seq<Event>): State {
    if trace == [] then s else Step(Run(s, trace[..|trace| - 1]), trace[|trace| - 1])
  }

  /** Every event was enabled, and every write drew unused uuids under the same renderings. */
  ghost predicate Possible(s: State, trace: seq<Event>, text: Text) {
    forall i :: 0 <= i < |trace| ==>
      var before := Run(s, trace[..i]);
      Enabled(before, trace[i])
      && (trace[i].Write? ==> trace[i].env.text == text && Fresh(trace[i].env, before.working, 1))
  }

  ghost predicate Locked(s: State) {
    (s.depth == 0 <==> s.owner == None)
    && (s.depth == 0 ==> s.working == s.committed)
    && (forall th: Thread :: Mine(s, th) == if s.owner == Some(th) then s.depth else 0)
  }

  lemma StepLocked(s: State, e: Event)
    requires Locked(s) && Enabled(s, e)
    ensures Locked(Step(s, e))
  {
  }

  lemma {:induction false} RunLocked(s: State, trace: seq<Event>, text: Text)
    requires Locked(s) && Possible(s, trace, text)
    ensures Locked(Run(s, trace))
  {
    if trace != [] {
      var front := trace[..|trace| - 1];
      assert forall i :: 0 <= i < |front| ==> front[..i] == trace[..i];
      RunLocked(s, front, text);
      StepLocked(Run(s, front), trace[|trace| - 1]);
    }
  }

  // ---- Invariants of every reachable state -----------------------------------------------

  ghost predicate Sound(s: State, text: Text) {
    Locked(s) && Inv(s.committed, text) && Inv(s.working, text) && Grown(s.committed, s.working)
  }

  ghost predicate AllHonest(trace: seq<Event>) {
    forall i :: 0 <= i < |trace| && trace[i].Write? ==> Honest(trace[i].op, trace[i].env.text)
  }

  lemma StepSound(s: State, e: Event, text: Text)
    requires Sound(s, text) && Enabled(s, e)
    requires e.Write? ==> e.env.text == text && Fresh(e.env, s.working, 1) && Honest(e.op, text)
    ensures Sound(Step(s, e), text) && Grown(s.committed, Step(s, e).committed)
  {
    StepLocked(s, e);
    if e.Write? {
      ApplyKeeps(s.working, e.op, e.env);
    }
  }

  /** In every reachable state, for committed and uncommitted data alike: replaying the evidence
      log gives the job table, each entry's `before` is the last `after`, keys are unique, and
      what is committed of an append-only table is never rewritten. */
  lemma {:induction false} RunSound(s: State, trace: seq<Event>, text: Text)
    requires Sound(s, text) && Possible(s, trace, text) && AllHonest(trace)
    ensures Sound(Run(s, trace), text) && Grown(s.committed, Run(s, trace).committed)
  {
    if trace != [] {
      var front := trace[..|trace| - 1];
      assert forall i :: 0 <= i < |front| ==> front[..i] == trace[..i];
      RunSound(s, front, text);
      StepSound(Run(s, front), trace[|trace| - 1], text);
    }
  }

  /** The replay law on its own, for whatever a thread can see after any run from an empty file. */
  lemma ReplayGivesJobs(trace: seq<Event>, th: Thread, text: Text)
    requires Possible(State(map[], map[], 0, None, map[]), trace, text) && AllHonest(trace)
    ensures
      var db := View(Run(State(map[], map[], 0, None, map[]), trace), th);
      var log := Log(RowsOf(db, AuditOutbox));
      Replay(log, text) == Image(RowsOf(db, AgentJobs))
      && forall i :: 0 <= i < |log| ==>
           Detail(log[i], "before") == LastAfter(log[..i], JobKey(log[i], text), text)
  {
    RunSound(State(map[], map[], 0, None, map[]), trace, text);
  }

  ghost predicate AllKeepKeys(trace: seq<Event>) {
    forall i :: 0 <= i < |trace| && trace[i].Write? ==> KeepsKey(trace[i].op)
  }

  ghost predicate AllDefaultSeq(trace: seq<Event>) {
    forall i :: 0 <= i < |trace| && trace[i].Write? ==> DefaultsSeq(trace[i].op)
  }

  ghost predicate Unique(s: State, text: Text) {
    UniqueOk(s.committed, text) && UniqueOk(s.working, text)
  }

  lemma StepUnique(s: State, e: Event, text: Text)
    requires Sound(s, text) && Unique(s, text)
    requires e.Write? ==> e.env.text == text && Fresh(e.env, s.working, 1) && Honest(e.op, text) && KeepsKey(e.op)
    ensures Unique(Step(s, e), text)
  {
    if e.Write? {
      ApplyUnique(s.working, e.op, e.env);
    }
  }

  ghost predicate NumberedEvents(s: State) {
    Numbered(RowsOf(s.committed, ScoreEvents)) && Numbered(RowsOf(s.working, ScoreEvents))
  }

  lemma StepNumbers(s: State, e: Event, text: Text)
    requires Sound(s, text) && NumberedEvents(s)
    requires e.Write? ==> e.env.text == text && Fresh(e.env, s.working, 1) && Honest(e.op, text) && DefaultsSeq(e.op)
    ensures NumberedEvents(Step(s, e))
  {
    if e.Write? {
      ApplyNumbers(s.working, e.op, e.env);
    }
  }

  /** Unique constraints hold in every reachable state when updates leave constrained keys alone. */
  lemma {:induction false} RunUnique(s: State, trace: seq<Event>, text: Text)
    requires Sound(s, text) && Possible(s, trace, text) && AllHonest(trace) && AllKeepKeys(trace)
    requires Unique(s, text)
    ensures Unique(Run(s, trace), text)
  {
    if trace != [] {
      var front, e := trace[..|trace| - 1], trace[|trace| - 1];
      assert forall i :: 0 <= i < |front| ==> front[..i] == trace[..i];
      RunUnique(s, front, text);
      RunSound(s, front, text);
      StepUnique(Run(s, front), e, text);
    }
  }

  /** Sequence numbers left to the store are 1..n in every reachable state, rollbacks included. */
  lemma {:induction false} RunNumbers(s: State, trace: seq<Event>, text: Text)
    requires Sound(s, text) && Possible(s, trace, text) && AllHonest(trace) && AllDefaultSeq(trace)
    requires NumberedEvents(s)
    ensures NumberedEvents(Run(s, trace))
  {
    if trace != [] {
      var front, e := trace[..|trace| - 1], trace[|trace| - 1];
      assert forall i :: 0 <= i < |front| ==> front[..i] == trace[..i];
      RunNumbers(s, front, text);
      RunSound(s, front, text);
      StepNumbers(Run(s, front), e, text);
    }
  }

  /** The committed and the uncommitted events are the given rows. */
  ghost predicate EventsAre(s: State, rows: Table) {
    RowsOf(s.committed, ScoreEvents) == rows && RowsOf(s.working, ScoreEvents) == rows
  }

  lemma StepStuck(s: State, e: Event, rows: Table, text: Text)
    requires Sound(s, text) && EventsAre(s, rows) && Stuck(rows)
    requires e.Write? ==> e.env.text == text && Fresh(e.env, s.working, 1) && Honest(e.op, text) && DefaultsSeq(e.op)
    ensures EventsAre(Step(s, e), rows)
  {
    if e.Write? {
      ApplyStuck(s.working, e.op, e.env);
    }
  }

  /** Once the next number is refused, no run that leaves numbers to the store ever adds an event. */
  lemma {:induction false} RunStuck(s: State, trace: seq<Event>, rows: Table, text: Text)
    requires Sound(s, text) && Possible(s, trace, text) && AllHonest(trace) && AllDefaultSeq(trace)
    requires EventsAre(s, rows) && Stuck(rows)
    ensures EventsAre(Run(s, trace), rows)
  {
    if trace != [] {
      var front, e := trace[..|trace| - 1], trace[|trace| - 1];
      assert forall i :: 0 <= i < |front| ==> front[..i] == trace[..i];
      RunStuck(s, front, rows, text);
      RunSound(s, front, text);
      StepStuck(Run(s, front), e, rows, text);
    }
  }

  // ---- Atomicity and isolation -----------------------------------------------------------

  /** All writes of a trace applied in order, whatever the blocks around them did. */
  function ApplyAll(db: Db, trace: seq<Event>): Db {
    if trace == [] then db
    else
      var before, e := ApplyAll(db, trace[..|trace| - 1]), trace[|trace| - 1];
      if e.Write? then Apply(before, e.op, e.env).db else before
  }

  /** The trace stays inside an open block: it never closes the outermost one. */
  ghost predicate Inside(s: State, trace: seq<Event>) {
    forall i :: 0 <= i <= |trace| ==> Run(s, trace[..i]).depth > 0
  }

  /** A step that leaves a block open commits nothing, and changes the uncommitted data only if it writes. */
  lemma StepInside(s: State, e: Event)
    requires Locked(s) && s.depth > 0 && Enabled(s, e) && Step(s, e).depth > 0
    ensures Step(s, e).committed == s.committed && Step(s, e).owner == s.owner
    ensures Step(s, e).working == if e.Write? then Apply(s.working, e.op, e.env).db else s.working
  {
  }

  lemma {:induction false} InsideCommitsNothing(s: State, trace: seq<Event>, text: Text)
    requires Locked(s) && s.depth > 0 && Inside(s, trace) && Possible(s, trace, text)
    ensures
      var r := Run(s, trace);
      r.committed == s.committed && r.working == ApplyAll(s.working, trace) && r.owner == s.owner
  {
    if trace != [] {
      var front := trace[..|trace| - 1];
      assert forall i :: 0 <= i <= |front| ==> front[..i] == trace[..i];
      InsideCommitsNothing(s, front, text);
      RunLocked(s, front, text);
      assert trace[..|trace|] == trace && trace[..|front|] == front;
      StepInside(Run(s, front), trace[|trace| - 1]);
    }
  }

  lemma BlockOutcome(s: State, th: Thread, inner: seq<Event>, ok: bool, text: Text)
    requires Locked(s) && s.depth == 0 && Possible(Step(s, Enter(th)), inner, text)
    requires Inside(Step(s, Enter(th)), inner) && Run(Step(s, Enter(th)), inner).depth == 1
    ensures
      var end := Step(Run(Step(s, Enter(th)), inner), Leave(th, ok));
      end.committed == (if ok then ApplyAll(s.committed, inner) else s.committed)
      && end.working == end.committed && end.depth == 0 && end.owner == None && Mine(end, th) == Mine(s, th)
  {
    var start := Step(s, Enter(th));
    StepLocked(s, Enter(th));
    InsideCommitsNothing(start, inner, text);
    RunLocked(start, inner, text);
  }

  lemma BlockRuns(s: State, th: Thread, inner: seq<Event>, ok: bool)
    ensures Run(s, [Enter(th)] + inner + [Leave(th, ok)]) == Step(Run(Step(s, Enter(th)), inner), Leave(th, ok))
  {
    RunAppend(s, [Enter(th)], inner);
    RunAppend(s, [Enter(th)] + inner, [Leave(th, ok)]);
    RunOne(s, Enter(th));
    RunOne(Run(Step(s, Enter(th)), inner), Leave(th, ok));
  }

  /** An outermost block is all or nothing: if it returns, every write made inside it, nested
      blocks included and however they ended, is committed together and in order; if it raises,
      the data is what it was at the start. Until then the thread reads what it has written so far,
      and every other thread the old data. */
  lemma OutermostBlock(s: State, th: Thread, inner: seq<Event>, ok: bool, text: Text)
    requires Locked(s) && s.depth == 0
    requires Possible(s, [Enter(th)] + inner + [Leave(th, ok)], text)
    requires Inside(Step(s, Enter(th)), inner) && Run(Step(s, Enter(th)), inner).depth == 1
    ensures
      var end := Run(s, [Enter(th)] + inner + [Leave(th, ok)]);
      end.committed == (if ok then ApplyAll(s.committed, inner) else s.committed)
      && end.working == end.committed && end.depth == 0 && end.owner == None && Mine(end, th) == Mine(s, th)
    ensures forall i, other :: 0 <= i <= |inner| ==>
      View(Run(Step(s, Enter(th)), inner[..i]), other)
        == if other == th then ApplyAll(s.committed, inner[..i]) else s.committed
  {
    PossibleTail(s, th, inner, ok, text);
    BlockRuns(s, th, inner, ok);
    BlockOutcome(s, th, inner, ok, text);
    BlockViews(s, th, inner, text);
  }

  lemma BlockViews(s: State, th: Thread, inner: seq<Event>, text: Text)
    requires Locked(s) && s.depth == 0 && Possible(Step(s, Enter(th)), inner, text)
    requires Inside(Step(s, Enter(th)), inner)
    ensures forall i, other :: 0 <= i <= |inner| ==>
      View(Run(Step(s, Enter(th)), inner[..i]), other)
        == if other == th then ApplyAll(s.committed, inner[..i]) else s.committed
  {
    StepLocked(s, Enter(th));
    forall i, other | 0 <= i <= |inner|
      ensures View(Run(Step(s, Enter(th)), inner[..i]), other)
        == if other == th then ApplyAll(s.committed, inner[..i]) else s.committed
    {
      PrefixInside(Step(s, Enter(th)), inner, i, text);
    }
  }

  lemma RunOne(s: State, e: Event)
    ensures Run(s, [e]) == Step(s, e)
  {
    assert [e][..0] == [];
  }

  lemma RunThree(s: State, a: Event, b: Event, c: Event)
    ensures Run(s, [a, b, c]) == Step(Step(Step(s, a), b), c)
  {
    RunOne(s, a);
    assert [a, b][..|[a, b]| - 1] == [a] && [a, b, c][..|[a, b, c]| - 1] == [a, b];
  }

  lemma {:induction false} RunAppend(s: State, a: seq<Event>, b: seq<Event>)
    ensures Run(s, a + b) == Run(Run(s, a), b)
  {
    if b == [] {
      assert a + b == a;
    } else {
      RunAppend(s, a, b[..|b| - 1]);
      assert (a + b)[..|a + b| - 1] == a + b[..|b| - 1];
    }
  }

  lemma TailBefore(s: State, th: Thread, inner: seq<Event>, ok: bool, i: nat)
    requires i <= |inner|
    ensures var all := [Enter(th)] + inner + [Leave(th, ok)];
      Run(s, all[..i + 1]) == Run(Step(s, Enter(th)), inner[..i]) && (i < |inner| ==> all[i + 1] == inner[i])
  {
    var all := [Enter(th)] + inner + [Leave(th, ok)];
    assert all[..i + 1] == [Enter(th)] + inner[..i];
    RunAppend(s, [Enter(th)], inner[..i]);
    RunOne(s, Enter(th));
  }

  lemma PossibleTail(s: State, th: Thread, inner: seq<Event>, ok: bool, text: Text)
    requires Possible(s, [Enter(th)] + inner + [Leave(th, ok)], text)
    ensures Possible(Step(s, Enter(th)), inner, text)
  {
    var all := [Enter(th)] + inner + [Leave(th, ok)];
    forall i | 0 <= i < |inner|
      ensures var before := Run(Step(s, Enter(th)), inner[..i]);
        Enabled(before, inner[i])
        && (inner[i].Write? ==> inner[i].env.text == text && Fresh(inner[i].env, before.working, 1))
    {
      TailBefore(s, th, inner, ok, i);
      assert Enabled(Run(s, all[..i + 1]), all[i + 1]);
    }
  }

  lemma PrefixInside(s: State, trace: seq<Event>, i: nat, text: Text)
    requires Locked(s) && s.depth > 0 && Inside(s, trace) && Possible(s, trace, text) && i <= |trace|
    ensures
      var r := Run(s, trace[..i]);
      r.committed == s.committed
      && forall th: Thread ::
           View(r, th) == if Some(th) == s.owner then ApplyAll(s.working, trace[..i]) else s.committed
  {
    var prefix := trace[..i];
    assert forall k :: 0 <= k <= |prefix| ==> prefix[..k] == trace[..k];
    InsideCommitsNothing(s, prefix, text);
    RunLocked(s, prefix, text);
  }

  lemma {:induction false} PossibleNext(s: State, trace: seq<Event>, e: Event, text: Text)
    requires Possible(s, trace, text) && Enabled(Run(s, trace), e)
    requires e.Write? ==> e.env.text == text && Fresh(e.env, Run(s, trace).working, 1)
    ensures Possible(s, trace + [e], text) && Run(s, trace + [e]) == Step(Run(s, trace), e)
  {
    var all := trace + [e];
    assert all[..|trace|] == trace;
    forall i | 0 <= i < |all|
      ensures var before := Run(s, all[..i]);
        Enabled(before, all[i])
        && (all[i].Write? ==> all[i].env.text == text && Fresh(all[i].env, before.working, 1))
    {
      if i < |trace| {
        assert all[..i] == trace[..i] && all[i] == trace[i];
      }
    }
  }

  lemma Entered(s: State, trace: seq<Event>, longer: seq<Event>, th: Thread, text: Text)
    requires Possible(s, trace, text) && (Run(s, trace).owner == None || Run(s, trace).owner == Some(th))
    requires longer == trace + [Enter(th)]
    ensures Possible(s, longer, text)
    ensures var before, r := Run(s, trace), Run(s, longer);
      r.depth == before.depth + 1 && r.owner == Some(th) && r.committed == before.committed
      && r.working == if before.depth == 0 then before.committed else before.working
  {
    PossibleNext(s, trace, Enter(th), text);
  }

  lemma Wrote(s: State, trace: seq<Event>, longer: seq<Event>, th: Thread, op: Op, env: Env, text: Text)
    requires Possible(s, trace, text) && Run(s, trace).owner == Some(th)
    requires env.text == text && Fresh(env, Run(s, trace).working, 1)
    requires longer == trace + [Write(th, op, env)]
    ensures Possible(s, longer, text)
    ensures Run(s, longer) == Run(s, trace).(working := Apply(Run(s, trace).working, op, env).db)
  {
    PossibleNext(s, trace, Write(th, op, env), text);
  }

  lemma Left(s: State, trace: seq<Event>, longer: seq<Event>, th: Thread, ok: bool, text: Text)
    requires Possible(s, trace, text) && Run(s, trace).owner == Some(th)
    requires longer == trace + [Leave(th, ok)]
    ensures Possible(s, longer, text)
    ensures var before, r := Run(s, trace), Run(s, longer);
      if before.depth > 1 then r.depth == before.depth - 1 && r.owner == before.owner
                               && r.working == before.working && r.committed == before.committed
      else r.owner == None && r.committed == if ok then before.working else before.committed
  {
    PossibleNext(s, trace, Leave(th, ok), text);
  }

  /** Two blocks entered, the second inside the first. */
  lemma EnteredTwice(s: State, one: seq<Event>, two: seq<Event>, th: Thread, text: Text)
    requires s.owner == None && s.depth == 0 && one == [Enter(th)] && two == one + [Enter(th)]
    ensures Possible(s, two, text)
    ensures Run(s, two).depth == 2 && Run(s, two).owner == Some(th) && Run(s, two).working == s.committed
  {
    Entered(s, [], one, th, text);
    Entered(s, one, two, th, text);
  }

  /** Both blocks left, the inner one by a failure that the outer one catches. */
  lemma LeftTwice(s: State, trace: seq<Event>, one: seq<Event>, two: seq<Event>, th: Thread, text: Text)
    requires Possible(s, trace, text) && Run(s, trace).owner == Some(th) && Run(s, trace).depth == 2
    requires one == trace + [Leave(th, false)] && two == one + [Leave(th, true)]
    ensures Possible(s, two, text)
    ensures Run(s, two).committed == Run(s, trace).working && Run(s, two).owner == None
  {
    Left(s, trace, one, th, false, text);
    Left(s, one, two, th, true, text);
  }

  /** A block inside a block is possible, and one that raises and is caught loses nothing: what it wrote
      is committed when the outer block returns. */
  lemma CaughtFailureKept(s: State, th: Thread, op: Op, env: Env, text: Text)
    requires Locked(s) && s.depth == 0 && env.text == text && Fresh(env, s.committed, 1)
    ensures
      var trace := [Enter(th), Enter(th), Write(th, op, env), Leave(th, false), Leave(th, true)];
      var end := Run(s, trace);
      Possible(s, trace, text) && end.committed == Apply(s.committed, op, env).db && end.owner == None
  {
    var trace := [Enter(th), Enter(th), Write(th, op, env), Leave(th, false), Leave(th, true)];
    assert trace[..5] == trace;
    CaughtInside(s, th, op, env, seq(6, i requires 0 <= i < 6 => trace[..i]), text);
  }

  lemma CaughtInside(s: State, th: Thread, op: Op, env: Env, t: seq<seq<Event>>, text: Text)
    requires s.owner == None && s.depth == 0 && env.text == text && Fresh(env, s.committed, 1)
    requires |t| == 6 && t[1] == [Enter(th)] && t[2] == t[1] + [Enter(th)] && t[3] == t[2] + [Write(th, op, env)]
    requires t[4] == t[3] + [Leave(th, false)] && t[5] == t[4] + [Leave(th, true)]
    ensures Possible(s, t[5], text)
    ensures Run(s, t[5]).committed == Apply(s.committed, op, env).db && Run(s, t[5]).owner == None
  {
    EnteredTwice(s, t[1], t[2], th, text);
    Wrote(s, t[2], t[3], th, op, env, text);
    LeftTwice(s, t[3], t[4], t[5], th, text);
  }

  /** In every reachable state the lock's owner can go on, and when nobody owns it every thread can
      begin; so no run is ever stuck. */
  lemma RunGoesOn(s: State, trace: seq<Event>, th: Thread, text: Text)
    requires Locked(s) && Possible(s, trace, text)
    ensures var r := Run(s, trace);
      (r.owner == None || r.owner == Some(th) ==> Possible(s, trace + [Enter(th)], text))
      && (r.owner == Some(th) ==> forall ok :: Possible(s, trace + [Leave(th, ok)], text))
  {
    var r := Run(s, trace);
    if r.owner == None || r.owner == Some(th) {
      PossibleNext(s, trace, Enter(th), text);
    }
    if r.owner == Some(th) {
      forall ok ensures Possible(s, trace + [Leave(th, ok)], text) {
        PossibleNext(s, trace, Leave(th, ok), text);
      }
    }
  }
}
