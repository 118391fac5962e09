/** The worker waker: triggers, the drain task, and the dirty flag, as steps that are atomic
    between awaits. Times are seconds on the monotonic clock. */
module Waker {

  /** Where a drain task is: created but not yet run, reading the inbox, sleeping until the minimum
      interval has passed, running the worker, or over. */
  datatype Phase = Created | Reading | Sleeping(wakeAt: real) | Executing | Ended

  /** Every drain task ever created; _drain_task is the last. `spawns` are the recorded starts. */
  datatype State = State(tasks: seq<Phase>, dirty: bool, lastSpawn: real, clock: real, spawns: seq<real>)

  const START := State([], false, 0.0, 0.0, [])

  datatype Event =
    | Trigger
    | Begin(task: nat)
    | InboxEmpty(task: nat)
    | InboxJobs(task: nat, now: real, spawn: real)
    | Woken(task: nat, spawn: real)
    | ExecDone(task: nat)
    | Raise(task: nat)

  predicate Running(s: State) {
    s.tasks != [] && !s.tasks[|s.tasks| - 1].Ended?
  }

  predicate Enabled(s: State, e: Event) {
    match e
    case Trigger => true
    case Begin(i) => i < |s.tasks| && s.tasks[i].Created?
    case InboxEmpty(i) => i < |s.tasks| && s.tasks[i].Reading?
    case InboxJobs(i, now, spawn) => i < |s.tasks| && s.tasks[i].Reading? && s.clock <= now <= spawn
    case Woken(i, spawn) => i < |s.tasks| && s.tasks[i].Sleeping? && s.tasks[i].wakeAt <= spawn && s.clock <= spawn
    case ExecDone(i) => i < |s.tasks| && s.tasks[i].Executing?
    case Raise(i) => i < |s.tasks| && !s.tasks[i].Ended?
  }

  function Move(s: State, task: nat, phase: Phase): State {
    if task < |s.tasks| then s.(tasks := s.tasks[task := phase]) else s
  }

  function Spawned(s: State, task: nat, at: real): State {
    Move(s, task, Executing).(lastSpawn := at, clock := at, spawns := s.spawns + [at])
  }

  function Step(s: State, e: Event, minInterval: real): State {
    match e
    case Trigger => if Running(s) then s.(dirty := true) else s.(tasks := s.tasks + [Created])
    case Begin(i) => Move(s, i, Reading).(dirty := false)
    case InboxEmpty(i) => Move(s, i, Ended)
    case InboxJobs(i, now, spawn) =>
      var wait := minInterval - (now - s.lastSpawn);
      if wait > 0.0 then Move(s, i, Sleeping(now + wait)).(clock := now)
      else Spawned(s, i, spawn)
    case Woken(i, spawn) => Spawned(s, i, spawn)
    case ExecDone(i) =>
      if s.dirty then Move(s, i, Reading).(dirty := false)
      else Move(s, i, Ended)
    case Raise(i) => Move(s, i, Ended)
  }

  function After(trace: seq<Event>, minInterval: real): State {
    if trace == [] then START
    else Step(After(trace[..|trace| - 1], minInterval), trace[|trace| - 1], minInterval)
  }

  ghost predicate Possible(trace: seq<Event>, minInterval: real) {
    minInterval >= 0.0
    && forall k :: 0 <= k < |trace| ==> Enabled(After(trace[..k], minInterval), trace[k])
  }

  // ---- One worker at a time, no closer than the interval ---------------------------------

  ghost predicate Sound(s: State, minInterval: real) {
    (forall i :: 0 <= i < |s.tasks| - 1 ==> s.tasks[i].Ended?)
    && s.lastSpawn <= s.clock
    && s.lastSpawn == (if s.spawns == [] then 0.0 else s.spawns[|s.spawns| - 1])
    && (forall i :: 0 < i < |s.spawns| ==> s.spawns[i] >= s.spawns[i - 1] + minInterval)
    && (s.spawns != [] ==> s.spawns[0] >= minInterval)
    && (forall i :: 0 <= i < |s.tasks| && s.tasks[i].Sleeping? ==> s.tasks[i].wakeAt == s.lastSpawn + minInterval)
  }

  lemma StepSound(s: State, e: Event, minInterval: real)
    requires Sound(s, minInterval) && Enabled(s, e) && minInterval >= 0.0
    ensures Sound(Step(s, e, minInterval), minInterval)
  {
  }

  lemma {:induction false} PrefixSound(trace: seq<Event>, n: nat, minInterval: real)
    requires Possible(trace, minInterval) && n <= |trace|
    ensures Sound(After(trace[..n], minInterval), minInterval)
  {
    if n > 0 {
      PrefixSound(trace, n - 1, minInterval);
      PrefixStep(trace, n, minInterval);
      StepSound(After(trace[..n - 1], minInterval), trace[n - 1], minInterval);
    }
  }

  lemma PrefixStep(trace: seq<Event>, n: nat, minInterval: real)
    requires 0 < n <= |trace|
    ensures After(trace[..n], minInterval) == Step(After(trace[..n - 1], minInterval), trace[n - 1], minInterval)
  {
    assert trace[..n][..n - 1] == trace[..n - 1];
  }

  /** After any run at most one worker command runs, and the recorded starts are at least the
      minimum interval apart. */
  lemma OneWorkerSpacedApart(trace: seq<Event>, minInterval: real)
    requires Possible(trace, minInterval)
    ensures
      var s := After(trace, minInterval);
      (forall i, j :: 0 <= i < |s.tasks| && 0 <= j < |s.tasks| && s.tasks[i].Executing? && s.tasks[j].Executing?
         ==> i == j)
      && (forall i :: 0 < i < |s.spawns| ==> s.spawns[i] >= s.spawns[i - 1] + minInterval)
  {
    PrefixSound(trace, |trace|, minInterval);
    assert trace[..|trace|] == trace;
  }

  // ---- Wake-ups --------------------------------------------------------------------------

  /** The k-th event starts an inbox read. */
  ghost predicate StartsRead(trace: seq<Event>, k: nat, minInterval: real)
    requires k < |trace|
  {
    trace[k].Begin? || (trace[k].ExecDone? && After(trace[..k], minInterval).dirty)
  }

  /** The k-th event ends the drain without a look at the dirty flag. */
  predicate CutsShort(trace: seq<Event>, k: nat)
    requires k < |trace|
  {
    trace[k].InboxEmpty? || trace[k].Raise?
  }

  /** The drain owes a read: it has not begun, or it will see the dirty flag. */
  predicate Owes(s: State) {
    Running(s) && (s.tasks[|s.tasks| - 1].Created? || s.dirty)
  }

  predicate IsReading(s: State) {
    s.tasks != [] && s.tasks[|s.tasks| - 1].Reading?
  }

  ghost predicate NoReadBetween(trace: seq<Event>, from: nat, to: nat, minInterval: real)
    requires to <= |trace|
  {
    forall j: nat :: from < j < to ==> !StartsRead(trace, j, minInterval)
  }

  /** From the trigger at i on the drain only went on with what it was doing, and at k it came back
      from an empty inbox or raised. */
  predicate CutOff(trace: seq<Event>, i: nat, k: nat) {
    i < k < |trace| && CutsShort(trace, k) && forall j: nat :: i < j < k ==> GoesOn(trace[j])
  }

  predicate GoesOn(e: Event) {
    e.Trigger? || e.InboxJobs? || e.Woken?
  }

  /** The wake-up of the trigger at i was dropped. */
  ghost predicate Dropped(trace: seq<Event>, i: nat) {
    exists k: nat :: CutOff(trace, i, k)
  }

  lemma StepOwes(s: State, e: Event, minInterval: real)
    requires Sound(s, minInterval) && Enabled(s, e) && Owes(s)
    requires !e.Begin? && !(e.ExecDone? && s.dirty) && !e.InboxEmpty? && !e.Raise?
    ensures Owes(Step(s, e, minInterval))
  {
  }

  lemma TriggerOwes(s: State, e: Event, minInterval: real)
    requires Sound(s, minInterval) && Enabled(s, e) && e.Trigger?
    ensures Owes(Step(s, e, minInterval))
  {
  }

  lemma OwedNext(trace: seq<Event>, n: nat, minInterval: real)
    requires Possible(trace, minInterval) && 0 < n <= |trace|
    requires trace[n - 1].Trigger?
      || (Owes(After(trace[..n - 1], minInterval)) && !StartsRead(trace, n - 1, minInterval)
          && !CutsShort(trace, n - 1))
    ensures Owes(After(trace[..n], minInterval))
  {
    var k := n - 1;
    PrefixStep(trace, n, minInterval);
    PrefixSound(trace, k, minInterval);
    if trace[k].Trigger? {
      TriggerOwes(After(trace[..k], minInterval), trace[k], minInterval);
    } else {
      StepOwes(After(trace[..k], minInterval), trace[k], minInterval);
    }
  }

  lemma {:induction false} OwedUntil(trace: seq<Event>, i: nat, n: nat, minInterval: real)
    requires Possible(trace, minInterval) && i < n <= |trace| && trace[i].Trigger?
    requires NoReadBetween(trace, i, n, minInterval) && forall k: nat :: i < k < n ==> !CutsShort(trace, k)
    ensures Owes(After(trace[..n], minInterval))
    decreases n
  {
    if n - 1 > i {
      OwedUntil(trace, i, n - 1, minInterval);
      assert !StartsRead(trace, n - 1, minInterval) && !CutsShort(trace, n - 1);
    }
    OwedNext(trace, n, minInterval);
  }

  lemma OwedExec(s: State, e: Event, minInterval: real)
    requires Sound(s, minInterval) && Enabled(s, e) && Owes(s) && e.ExecDone?
    ensures s.dirty
  {
  }

  /** While a read is owed, an event that neither starts one nor cuts the drain short lets it go on. */
  lemma OwedGoesOn(trace: seq<Event>, i: nat, j: nat, minInterval: real)
    requires Possible(trace, minInterval) && i < j < |trace| && trace[i].Trigger?
    requires NoReadBetween(trace, i, j + 1, minInterval) && forall k: nat :: i < k <= j ==> !CutsShort(trace, k)
    ensures GoesOn(trace[j])
  {
    OwedUntil(trace, i, j, minInterval);
    PrefixSound(trace, j, minInterval);
    assert !StartsRead(trace, j, minInterval) && !CutsShort(trace, j);
    if trace[j].ExecDone? {
      OwedExec(After(trace[..j], minInterval), trace[j], minInterval);
    }
  }

  lemma {:induction false} FirstCut(trace: seq<Event>, i: nat, k: nat) returns (c: nat)
    requires i < k < |trace| && CutsShort(trace, k)
    ensures i < c <= k && CutsShort(trace, c) && forall j: nat :: i < j < c ==> !CutsShort(trace, j)
    decreases k
  {
    c := k;
    if j: nat :| i < j < k && CutsShort(trace, j) {
      c := FirstCut(trace, i, j);
    }
  }

  /** A trigger is dropped exactly when the drain is cut short before any new read starts. */
  lemma DroppedExactly(trace: seq<Event>, i: nat, minInterval: real)
    requires Possible(trace, minInterval) && i < |trace| && trace[i].Trigger?
    ensures Dropped(trace, i)
      <==> exists k: nat :: i < k < |trace| && CutsShort(trace, k) && NoReadBetween(trace, i, k, minInterval)
  {
    if k: nat :| CutOff(trace, i, k) {
      assert NoReadBetween(trace, i, k, minInterval);
    }
    if k: nat :| i < k < |trace| && CutsShort(trace, k) && NoReadBetween(trace, i, k, minInterval) {
      var c := FirstCut(trace, i, k);
      forall j: nat | i < j < c ensures GoesOn(trace[j]) {
        OwedGoesOn(trace, i, j, minInterval);
      }
      assert CutOff(trace, i, c);
    }
  }

  /** No lost wake-up: a trigger is followed by an inbox read that starts after it, or the drain
      still owes one, unless the wake-up was dropped. */
  lemma NoLostWakeUp(trace: seq<Event>, i: nat, minInterval: real)
    requires Possible(trace, minInterval) && i < |trace| && trace[i].Trigger?
    ensures (exists j: nat :: i < j < |trace| && StartsRead(trace, j, minInterval))
         || Owes(After(trace, minInterval))
         || Dropped(trace, i)
  {
    if NoReadBetween(trace, i, |trace|, minInterval) && !Dropped(trace, i) {
      DroppedExactly(trace, i, minInterval);
      forall k: nat | i < k < |trace| ensures !CutsShort(trace, k) {
        assert NoReadBetween(trace, i, k, minInterval);
      }
      OwedUntil(trace, i, |trace|, minInterval);
      assert trace[..|trace|] == trace;
    }
  }

  lemma CutStops(s: State, e: Event, minInterval: real)
    requires Sound(s, minInterval) && Enabled(s, e) && (e.InboxEmpty? || e.Raise?)
    ensures !Running(Step(s, e, minInterval))
  {
  }

  lemma OnlyTriggers(s: State, e: Event, minInterval: real)
    requires Sound(s, minInterval) && Enabled(s, e) && !Running(s)
    ensures e.Trigger?
  {
  }

  /** A drain that was cut short leaves the waker idle, so the next event is a trigger. */
  lemma IdleAfterCut(trace: seq<Event>, k: nat, minInterval: real)
    requires Possible(trace, minInterval) && k < |trace| && CutsShort(trace, k)
    ensures !Running(After(trace[..k + 1], minInterval))
    ensures k + 1 < |trace| ==> trace[k + 1].Trigger?
  {
    PrefixStep(trace, k + 1, minInterval);
    PrefixSound(trace, k, minInterval);
    CutStops(After(trace[..k], minInterval), trace[k], minInterval);
    if k + 1 < |trace| {
      PrefixSound(trace, k + 1, minInterval);
      OnlyTriggers(After(trace[..k + 1], minInterval), trace[k + 1], minInterval);
    }
  }

  /** Exactly: when the waker has come to rest after the last trigger of a run, no read started
      after that trigger if and only if the next event other than a trigger, an inbox with jobs or
      a woken sleeper is an empty inbox or a raise. */
  lemma LostExactly(trace: seq<Event>, i: nat, minInterval: real)
    requires Possible(trace, minInterval) && i < |trace| && trace[i].Trigger?
    requires forall j: nat :: i < j < |trace| ==> !trace[j].Trigger?
    requires !Running(After(trace, minInterval))
    ensures NoReadBetween(trace, i, |trace|, minInterval) <==> Dropped(trace, i)
  {
    if NoReadBetween(trace, i, |trace|, minInterval) {
      NoLostWakeUp(trace, i, minInterval);
    }
    if Dropped(trace, i) {
      var k: nat :| CutOff(trace, i, k);
      NoReadAfterCut(trace, i, k, minInterval);
    }
  }

  lemma NoReadAfterCut(trace: seq<Event>, i: nat, k: nat, minInterval: real)
    requires Possible(trace, minInterval) && CutOff(trace, i, k)
    requires forall j: nat :: i < j < |trace| ==> !trace[j].Trigger?
    ensures NoReadBetween(trace, i, |trace|, minInterval)
  {
    IdleAfterCut(trace, k, minInterval);
    forall j: nat | i < j < |trace| ensures !StartsRead(trace, j, minInterval) {
      assert j < k ==> GoesOn(trace[j]);
      assert j <= k;
    }
  }

  lemma StepReading(s: State, e: Event, minInterval: real)
    requires Sound(s, minInterval) && Enabled(s, e) && IsReading(Step(s, e, minInterval))
    requires !e.Begin? && !(e.ExecDone? && s.dirty)
    ensures IsReading(s)
  {
  }

  /** With no new read in between, a read that is open now has been open all along. */
  lemma {:induction false} OpenAllAlong(trace: seq<Event>, i: nat, m: nat, n: nat, minInterval: real)
    requires Possible(trace, minInterval) && i <= m <= n < |trace|
    requires forall j: nat :: i <= j < n ==> !StartsRead(trace, j, minInterval)
    requires IsReading(After(trace[..n], minInterval))
    ensures IsReading(After(trace[..m], minInterval))
    decreases n
  {
    if m < n {
      PrefixStep(trace, n, minInterval);
      PrefixSound(trace, n - 1, minInterval);
      assert !StartsRead(trace, n - 1, minInterval);
      StepReading(After(trace[..n - 1], minInterval), trace[n - 1], minInterval);
      OpenAllAlong(trace, i, m, n - 1, minInterval);
    }
  }

  lemma StaysReading(s: State, e: Event, minInterval: real)
    requires Sound(s, minInterval) && Enabled(s, e) && IsReading(s) && IsReading(Step(s, e, minInterval))
    ensures e.Trigger?
  {
  }

  lemma EmptyWasReading(s: State, e: Event, minInterval: real)
    requires Sound(s, minInterval) && Enabled(s, e) && e.InboxEmpty?
    ensures IsReading(s)
  {
  }

  /** What an empty inbox drops is exactly a trigger that landed during the read it answers. */
  lemma EmptyInboxDropsExactly(trace: seq<Event>, i: nat, k: nat, minInterval: real)
    requires Possible(trace, minInterval) && i < k < |trace| && trace[i].Trigger? && trace[k].InboxEmpty?
    ensures CutOff(trace, i, k)
      <==> IsReading(After(trace[..i], minInterval)) && forall j: nat :: i < j < k ==> trace[j].Trigger?
  {
    if CutOff(trace, i, k) {
      NoReadInCut(trace, i, k, minInterval);
      PrefixSound(trace, k, minInterval);
      EmptyWasReading(After(trace[..k], minInterval), trace[k], minInterval);
      OpenAllAlong(trace, i, i, k, minInterval);
      forall j: nat | i < j < k ensures trace[j].Trigger? {
        OnlyTriggersInRead(trace, i, j, k, minInterval);
      }
    }
  }

  lemma NoReadInCut(trace: seq<Event>, i: nat, k: nat, minInterval: real)
    requires CutOff(trace, i, k) && trace[i].Trigger?
    ensures forall j: nat :: i <= j < k ==> !StartsRead(trace, j, minInterval)
  {
    forall j: nat | i <= j < k ensures !StartsRead(trace, j, minInterval) {
      assert j == i || GoesOn(trace[j]);
    }
  }

  /** While a read is open, every other event of the drain has to wait. */
  lemma OnlyTriggersInRead(trace: seq<Event>, i: nat, j: nat, k: nat, minInterval: real)
    requires Possible(trace, minInterval) && i < j < k < |trace|
    requires forall n: nat :: i <= n < k ==> !StartsRead(trace, n, minInterval)
    requires IsReading(After(trace[..k], minInterval))
    ensures trace[j].Trigger?
  {
    OpenAllAlong(trace, i, j, k, minInterval);
    OpenAllAlong(trace, i, j + 1, k, minInterval);
    PrefixStep(trace, j + 1, minInterval);
    PrefixSound(trace, j, minInterval);
    StaysReading(After(trace[..j], minInterval), trace[j], minInterval);
  }

  lemma NoReadAmongTriggers(trace: seq<Event>, i: nat, k: nat, minInterval: real)
    requires i < k < |trace| && trace[k].InboxEmpty? && forall j: nat :: i < j < k ==> trace[j].Trigger?
    ensures NoReadBetween(trace, i, k + 1, minInterval)
  {
    forall j: nat | i < j < k + 1 ensures !StartsRead(trace, j, minInterval) {
      assert j < k ==> trace[j].Trigger?;
    }
  }

  /** So a trigger during a read that comes back empty is lost: the waker is at rest, and no read
      has started since. */
  lemma LateTriggerLost(trace: seq<Event>, i: nat, k: nat, minInterval: real)
    requires Possible(trace, minInterval) && i < k < |trace| && trace[i].Trigger? && trace[k].InboxEmpty?
    requires IsReading(After(trace[..i], minInterval)) && forall j: nat :: i < j < k ==> trace[j].Trigger?
    ensures NoReadBetween(trace, i, k + 1, minInterval) && !Running(After(trace[..k + 1], minInterval))
  {
    NoReadAmongTriggers(trace, i, k, minInterval);
    IdleAfterCut(trace, k, minInterval);
  }

  /** A run that loses its second trigger. */
  lemma LostTrigger(minInterval: real)
    requires minInterval >= 0.0
    ensures var trace := [Trigger, Begin(0), Trigger, InboxEmpty(0)];
      Possible(trace, minInterval) && !Running(After(trace, minInterval))
      && NoReadBetween(trace, 2, |trace|, minInterval) && Dropped(trace, 2)
  {
    var trace := [Trigger, Begin(0), Trigger, InboxEmpty(0)];
    assert trace[..0] == [];
    PrefixStep(trace, 1, minInterval);
    PrefixStep(trace, 2, minInterval);
    PrefixStep(trace, 3, minInterval);
    PrefixStep(trace, 4, minInterval);
    assert trace[..4] == trace;
    assert CutOff(trace, 2, 3);
  }

  // ---- The worker runs -------------------------------------------------------------------

  /** How many inbox reads found jobs. */
  function JobsFound(trace: seq<Event>): nat {
    if trace == [] then 0 else JobsFound(trace[..|trace| - 1]) + if trace[|trace| - 1].InboxJobs? then 1 else 0
  }

  /** How many sleeping tasks were ended by a raise. */
  function RaisedAsleep(trace: seq<Event>, minInterval: real): nat {
    if trace == [] then 0
    else
      var front, e := trace[..|trace| - 1], trace[|trace| - 1];
      var s := After(front, minInterval);
      RaisedAsleep(front, minInterval)
      + if e.Raise? && e.task < |s.tasks| && s.tasks[e.task].Sleeping? then 1 else 0
  }

  predicate Asleep(s: State) {
    s.tasks != [] && s.tasks[|s.tasks| - 1].Sleeping?
  }

  function One(b: bool): nat {
    if b then 1 else 0
  }

  lemma StepSpawns(s: State, e: Event, minInterval: real)
    requires Sound(s, minInterval) && Enabled(s, e)
    ensures |Step(s, e, minInterval).spawns| + One(Asleep(Step(s, e, minInterval)))
      + One(e.Raise? && s.tasks[e.task].Sleeping?) == |s.spawns| + One(Asleep(s)) + One(e.InboxJobs?)
  {
  }

  /** Over every run, the worker was started once for each inbox read that found jobs, but for a task
      that still sleeps and for sleeping tasks that a raise ended. */
  lemma {:induction false} SpawnsCounted(trace: seq<Event>, minInterval: real)
    requires Possible(trace, minInterval)
    ensures var s := After(trace, minInterval);
      |s.spawns| + One(Asleep(s)) + RaisedAsleep(trace, minInterval) == JobsFound(trace)
  {
    if trace != [] {
      var n := |trace| - 1;
      var front := trace[..n];
      assert forall k :: 0 <= k < n ==> front[..k] == trace[..k];
      SpawnsCounted(front, minInterval);
      PrefixSound(trace, n, minInterval);
      StepSpawns(After(front, minInterval), trace[n], minInterval);
    }
  }

  function LastStart(s: State): real {
    if s.spawns == [] then 0.0 else s.spawns[|s.spawns| - 1]
  }

  /** When jobs are found, the worker starts in the same step if the interval since its last start has
      passed; otherwise the task sleeps until exactly then. */
  lemma StartsOrSleeps(trace: seq<Event>, k: nat, minInterval: real)
    requires Possible(trace, minInterval) && k < |trace| && trace[k].InboxJobs?
    ensures var before, after := After(trace[..k], minInterval), After(trace[..k + 1], minInterval);
      var e := trace[k];
      e.task < |after.tasks|
      && if e.now - LastStart(before) >= minInterval
         then after.spawns == before.spawns + [e.spawn] && after.tasks[e.task] == Executing
         else after.spawns == before.spawns
              && after.tasks[e.task] == Sleeping(LastStart(before) + minInterval)
  {
    PrefixStep(trace, k + 1, minInterval);
    PrefixSound(trace, k, minInterval);
  }

  /** A woken sleeper starts the worker, no earlier than it slept for. */
  lemma WokenStarts(trace: seq<Event>, k: nat, minInterval: real)
    requires Possible(trace, minInterval) && k < |trace| && trace[k].Woken?
    ensures var before, after := After(trace[..k], minInterval), After(trace[..k + 1], minInterval);
      var e := trace[k];
      after.spawns == before.spawns + [e.spawn] && e.spawn >= LastStart(before) + minInterval
      && e.task < |after.tasks| && after.tasks[e.task] == Executing
  {
    PrefixStep(trace, k + 1, minInterval);
    PrefixSound(trace, k, minInterval);
  }

  /** Exactly the events said to start a read leave the drain reading when it was not, and they clear
      the dirty flag. */
  lemma ReadsWhenSaid(trace: seq<Event>, k: nat, minInterval: real)
    requires Possible(trace, minInterval) && k < |trace|
    ensures var before, after := After(trace[..k], minInterval), After(trace[..k + 1], minInterval);
      (StartsRead(trace, k, minInterval) <==> !IsReading(before) && IsReading(after))
      && (StartsRead(trace, k, minInterval) ==> !after.dirty)
  {
    PrefixStep(trace, k + 1, minInterval);
    PrefixSound(trace, k, minInterval);
    StepReads(After(trace[..k], minInterval), trace[k], minInterval);
  }

  lemma StepReads(s: State, e: Event, minInterval: real)
    requires Sound(s, minInterval) && Enabled(s, e)
    ensures e.Begin? || (e.ExecDone? && s.dirty) <==> !IsReading(s) && IsReading(Step(s, e, minInterval))
    ensures e.Begin? || (e.ExecDone? && s.dirty) ==> !Step(s, e, minInterval).dirty
  {
  }

  /** A drain that is not over can always take its next step: begin, hear from the inbox, wake up, or
      see its worker finish. */
  lemma DrainGoesOn(trace: seq<Event>, minInterval: real) returns (e: Event)
    requires Possible(trace, minInterval) && Running(After(trace, minInterval))
    ensures !e.Trigger? && !e.Raise? && Possible(trace + [e], minInterval)
  {
    var s := After(trace, minInterval);
    var i := |s.tasks| - 1;
    match s.tasks[i] {
      case Created => e := Begin(i);
      case Reading => e := InboxJobs(i, s.clock, s.clock);
      case Sleeping(wakeAt) => e := Woken(i, if wakeAt <= s.clock then s.clock else wakeAt);
      case Executing => e := ExecDone(i);
      case Ended =>
    }
    assert (trace + [e])[..|trace|] == trace;
    assert forall k :: 0 <= k < |trace| ==> (trace + [e])[..k] == trace[..k];
  }

  /** A trigger that finds no drain starts one, and a trigger that finds one leaves it a mark. */
  lemma TriggerStartsOrMarks(trace: seq<Event>, k: nat, minInterval: real)
    requires Possible(trace, minInterval) && k < |trace| && trace[k].Trigger?
    ensures var before, after := After(trace[..k], minInterval), After(trace[..k + 1], minInterval);
      Running(after)
      && (if Running(before) then after.tasks == before.tasks && after.dirty
          else after.tasks == before.tasks + [Created])
  {
    PrefixStep(trace, k + 1, minInterval);
  }

  // ---- The object ------------------------------------------------------------------------

  class Waker {
    const minInterval: real
    var tasks: seq<Phase>
    var dirty: bool
    var lastSpawn: real
    ghost var clock: real
    ghost var spawns: seq<real>

    ghost function Now(): State
      reads this
    {
      State(tasks, dirty, lastSpawn, clock, spawns)
    }

    constructor (interval: real)
      ensures Now() == START && minInterval == (if interval > 0.0 then interval else 0.0)
    {
      minInterval := if interval > 0.0 then interval else 0.0;
      tasks, dirty, lastSpawn, clock, spawns := [], false, 0.0, 0.0, [];
    }

    /** trigger_drain */
    method TriggerDrain()
      modifies this
      ensures Now() == Step(old(Now()), Trigger, minInterval)
    {
      if tasks != [] && !tasks[|tasks| - 1].Ended? {
        dirty := true;
        return;
      }
      tasks := tasks + [Created];
    }

    /** _drain_loop, from the start of an iteration to its inbox read. */
    method StartRead(task: nat)
      requires Enabled(Now(), Begin(task))
      modifies this
      ensures Now() == Step(old(Now()), Begin(task), minInterval)
    {
      dirty := false;
      tasks := tasks[task := Reading];
    }

    /** From the inbox's answer to the next await; `now` and `spawn` are the clock reads of
        _enforce_min_interval. */
    method InboxAnswered(task: nat, anyJobs: bool, now: real, spawn: real)
      requires Enabled(Now(), if anyJobs then InboxJobs(task, now, spawn) else InboxEmpty(task))
      modifies this
      ensures Now() == Step(old(Now()), if anyJobs then InboxJobs(task, now, spawn) else InboxEmpty(task), minInterval)
    {
      if !anyJobs {
        tasks := tasks[task := Ended];
        return;
      }
      var waitFor := minInterval - (now - lastSpawn);
      if waitFor > 0.0 {
        tasks := tasks[task := Sleeping(now + waitFor)];
        clock := now;
      } else {
        Spawn(task, spawn);
      }
    }

    method Spawn(task: nat, at: real)
      requires task < |tasks|
      modifies this
      ensures Now() == Spawned(old(Now()), task, at)
    {
      lastSpawn := at;
      tasks := tasks[task := Executing];
      clock := at;
      spawns := spawns + [at];
    }

    /** From the end of the worker command to the next read or the end of the drain. */
    method ExecFinished(task: nat)
      requires Enabled(Now(), ExecDone(task))
      modifies this
      ensures Now() == Step(old(Now()), ExecDone(task), minInterval)
    {
      if !dirty {
        tasks := tasks[task := Ended];
        return;
      }
      dirty := false;
      tasks := tasks[task := Reading];
    }
  }
}
