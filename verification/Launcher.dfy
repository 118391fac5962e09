/** The scheduler tick: what one pass does to the saved states. */
module Launcher {
  import opened Options
  import opened Scheduler

  datatype Status = Waiting | NeedsApproval | Pending | Leased | InProgress | Done(name: string)

  predicate Active(status: Status) {
    !status.Done?
  }

  datatype BoardJob = BoardJob(id: string, role: string, status: Status)

  /** None is a gateway that could not be reached. */
  type Board = Option<seq<BoardJob>>

  /** What the outside world answers while one schedule is handled; a launch that raises is None. */
  datatype Answers = Answers(queue: Board, jobs: Board, launched: Option<seq<string>>)

  predicate InFlight(board: seq<BoardJob>, ids: seq<string>) {
    exists j :: j in board && j.id in ids && Active(j.status)
  }

  predicate RoleBusy(board: seq<BoardJob>, role: string) {
    exists j :: j in board && j.role == role && Active(j.status)
  }

  datatype Action = Complete | SkippedOverlap | WouldFire | Failed | Fired

  datatype Handled = Handled(state: ScheduleState, action: Action)

  function RecordFire(s: Schedule, st: ScheduleState, now: Micros, ids: seq<string>): ScheduleState {
    var fired := st.(iterations := st.iterations + 1, lastRun := Some(now), lastJobs := ids);
    var finished := ExhaustionReason(s, fired, now);
    if finished.Some? then fired.(exhausted := finished) else fired
  }

  /** The body of the tick for one due schedule. */
  function Handle(s: Schedule, st: ScheduleState, now: Micros, a: Answers, dryRun: bool): Handled {
    if s.untilEmpty.Some? && a.queue.Some? && !RoleBusy(a.queue.value, s.untilEmpty.value)
    then Handled(st.(exhausted := Some(QueueEmpty)), Complete)
    else if s.skipOverlap && a.jobs.Some? && InFlight(a.jobs.value, st.lastJobs)
    then Handled(st, SkippedOverlap)
    else if dryRun then Handled(st, WouldFire)
    else if a.launched.None? then Handled(st, Failed)
    else Handled(RecordFire(s, st, now, a.launched.value), Fired)
  }

  /** Saved states by schedule name; a name not yet saved is blank. */
  type States = map<string, ScheduleState>

  function StateOf(states: States, name: string): ScheduleState {
    if name in states then states[name] else BLANK
  }

  /** One schedule's share of a tick that is not aborted. */
  function Pass(s: Schedule, st: ScheduleState, now: Micros, a: Answers, dryRun: bool): ScheduleState {
    if IsDue(s, st, now) then Handle(s, st, now, a, dryRun).state else st
  }

  /** A cron search that finds nothing raises out of the tick before anything is launched. */
  predicate Aborts(config: seq<Schedule>, states: States, now: Micros) {
    exists s :: s in config && NextRunAt(s, StateOf(states, s.name), now).NoSuchTime?
  }

  /** What a pass reports: one row for each due schedule, in configuration order. */
  function Report(config: seq<Schedule>, states: States, now: Micros, answers: string -> Answers, dryRun: bool)
    : seq<(string, Action)>
  {
    if config == [] then []
    else
      var s := config[|config| - 1];
      var st := StateOf(states, s.name);
      Report(config[..|config| - 1], states, now, answers, dryRun) + Line(s, st, now, answers(s.name), dryRun)
  }

  function Line(s: Schedule, st: ScheduleState, now: Micros, a: Answers, dryRun: bool): seq<(string, Action)> {
    if IsDue(s, st, now) then [(s.name, Handle(s, st, now, a, dryRun).action)] else []
  }

  ghost predicate DistinctNames(config: seq<Schedule>) {
    forall i, j :: 0 <= i < j < |config| ==> config[i].name != config[j].name
  }

  ghost predicate SameStates(before: States, after: States) {
    forall name :: StateOf(after, name) == StateOf(before, name)
  }

  /** The first n schedules have had their pass; every other state is as it was. */
  ghost predicate SettledUpTo(config: seq<Schedule>, n: nat, before: States, after: States, now: Micros,
                              answers: string -> Answers, dryRun: bool)
  {
    && (forall k :: 0 <= k < n && k < |config| ==>
          StateOf(after, config[k].name)
            == Pass(config[k], StateOf(before, config[k].name), now, answers(config[k].name), dryRun))
    && (forall k :: n <= k < |config| ==> StateOf(after, config[k].name) == StateOf(before, config[k].name))
    && forall name :: (forall s :: s in config ==> s.name != name) ==> StateOf(after, name) == StateOf(before, name)
  }

  /** `after` is `states` but for the state of one schedule. */
  ghost predicate OnlyState(states: States, after: States, name: string, st: ScheduleState) {
    StateOf(after, name) == st && forall other :: other != name ==> StateOf(after, other) == StateOf(states, other)
  }

  lemma SettleNext(config: seq<Schedule>, n: nat, before: States, states: States, after: States, now: Micros,
                   answers: string -> Answers, dryRun: bool)
    requires DistinctNames(config) && n < |config| && SettledUpTo(config, n, before, states, now, answers, dryRun)
    requires var s := config[n];
      OnlyState(states, after, s.name, Pass(s, StateOf(states, s.name), now, answers(s.name), dryRun))
    ensures SettledUpTo(config, n + 1, before, after, now, answers, dryRun)
  {
    assert config[n] in config;
  }

  /** The states after a pass, schedule by schedule; a schedule that is not due adds no entry. */
  function PassStates(config: seq<Schedule>, states: States, now: Micros, answers: string -> Answers, dryRun: bool)
    : States
  {
    if config == [] then states
    else
      var earlier := PassStates(config[..|config| - 1], states, now, answers, dryRun);
      Turned(earlier, config[|config| - 1], now, answers, dryRun)
  }

  function Turned(states: States, s: Schedule, now: Micros, answers: string -> Answers, dryRun: bool): States {
    var st := StateOf(states, s.name);
    if IsDue(s, st, now) then states[s.name := Handle(s, st, now, answers(s.name), dryRun).state] else states
  }

  lemma TurnedOnly(states: States, s: Schedule, now: Micros, answers: string -> Answers, dryRun: bool)
    ensures OnlyState(states, Turned(states, s, now, answers, dryRun), s.name,
                      Pass(s, StateOf(states, s.name), now, answers(s.name), dryRun))
  {
  }

  lemma {:induction false} PassSettles(config: seq<Schedule>, n: nat, states: States, now: Micros,
                                       answers: string -> Answers, dryRun: bool)
    requires DistinctNames(config) && n <= |config|
    ensures SettledUpTo(config, n, states, PassStates(config[..n], states, now, answers, dryRun), now, answers, dryRun)
  {
    if n > 0 {
      PassSettles(config, n - 1, states, now, answers, dryRun);
      assert config[..n][..n - 1] == config[..n - 1];
      var before := PassStates(config[..n - 1], states, now, answers, dryRun);
      TurnedOnly(before, config[n - 1], now, answers, dryRun);
      var after := PassStates(config[..n], states, now, answers, dryRun);
      SettleNext(config, n - 1, states, before, after, now, answers, dryRun);
    }
  }

  /** A schedule's turn finds the state the pass began with. */
  lemma StillOwnState(config: seq<Schedule>, n: nat, states: States, now: Micros,
                      answers: string -> Answers, dryRun: bool)
    requires DistinctNames(config) && n < |config|
    ensures StateOf(PassStates(config[..n], states, now, answers, dryRun), config[n].name)
      == StateOf(states, config[n].name)
  {
    PassSettles(config, n, states, now, answers, dryRun);
  }

  /** Every schedule has had its own pass, whatever the others did, and no other state changed. */
  lemma PassIsPointwise(config: seq<Schedule>, states: States, now: Micros, answers: string -> Answers, dryRun: bool)
    requires DistinctNames(config)
    ensures var after := PassStates(config, states, now, answers, dryRun);
      (forall s :: s in config ==>
         StateOf(after, s.name) == Pass(s, StateOf(states, s.name), now, answers(s.name), dryRun))
      && forall name :: (forall s :: s in config ==> s.name != name) ==> StateOf(after, name) == StateOf(states, name)
  {
    PassSettles(config, |config|, states, now, answers, dryRun);
    assert config[..|config|] == config;
  }

  // ---- What a turn comes to --------------------------------------------------------------

  /** The board was read, and no job on it has the role and is unfinished. */
  ghost predicate Drained(board: Board, role: string) {
    board.Some? && forall j :: j in board.value && j.role == role ==> j.status.Done?
  }

  /** The board was read, and a job on it is one of these and is unfinished. */
  ghost predicate StillRunning(board: Board, ids: seq<string>) {
    board.Some? && exists j :: j in board.value && j.id in ids && !j.status.Done?
  }

  /** The schedule is due and its queue is drained. */
  ghost predicate Completes(s: Schedule, st: ScheduleState, now: Micros, a: Answers) {
    IsDue(s, st, now) && s.untilEmpty.Some? && Drained(a.queue, s.untilEmpty.value)
  }

  /** The schedule is due, it goes on, its last fire is not in the way, and the launch succeeds. */
  ghost predicate FiresNow(s: Schedule, st: ScheduleState, now: Micros, a: Answers, dryRun: bool) {
    IsDue(s, st, now) && !Completes(s, st, now, a) && !(s.skipOverlap && StillRunning(a.jobs, st.lastJobs))
    && !dryRun && a.launched.Some?
  }

  /** What one turn does to the schedule's state: it completes or fires exactly under these conditions,
      a fire is counted and recorded and completes the last iteration, and otherwise nothing changes. */
  ghost predicate Turn(s: Schedule, st: ScheduleState, after: ScheduleState, now: Micros, a: Answers, dryRun: bool) {
    (after.exhausted == Some(QueueEmpty) <==> st.exhausted == Some(QueueEmpty) || Completes(s, st, now, a))
    && (Completes(s, st, now, a) ==> after == st.(exhausted := Some(QueueEmpty)))
    && (after.iterations == st.iterations + 1 <==> FiresNow(s, st, now, a, dryRun))
    && (FiresNow(s, st, now, a, dryRun) ==>
          after.lastRun == Some(now) && after.lastJobs == a.launched.value
          && after.exhausted ==
               if s.maxIterations.Some? && st.iterations + 1 >= s.maxIterations.value then Some(AllIterations)
               else None)
    && (!Completes(s, st, now, a) && !FiresNow(s, st, now, a, dryRun) ==> after == st)
  }

  lemma BusyIsNotDrained(board: Board, role: string, ids: seq<string>)
    ensures Drained(board, role) <==> board.Some? && !RoleBusy(board.value, role)
    ensures StillRunning(board, ids) <==> board.Some? && InFlight(board.value, ids)
  {
  }

  lemma DueIsLive(s: Schedule, st: ScheduleState, now: Micros)
    requires IsDue(s, st, now)
    ensures st.exhausted.None? && (s.until.Some? ==> now <= s.until.value)
  {
  }

  lemma PassIsTurn(s: Schedule, st: ScheduleState, now: Micros, a: Answers, dryRun: bool)
    ensures Turn(s, st, Pass(s, st, now, a, dryRun), now, a, dryRun)
  {
    BusyIsNotDrained(a.queue, if s.untilEmpty.Some? then s.untilEmpty.value else "", []);
    BusyIsNotDrained(a.jobs, "", st.lastJobs);
    if IsDue(s, st, now) {
      DueIsLive(s, st, now);
    }
  }

  /** The row a due schedule gets in the report says what its turn came to. */
  lemma LineExactly(s: Schedule, st: ScheduleState, now: Micros, a: Answers, dryRun: bool)
    ensures var line := Line(s, st, now, a, dryRun);
      (line == [] <==> !IsDue(s, st, now))
      && (line == [(s.name, Complete)] <==> Completes(s, st, now, a))
      && (line == [(s.name, Fired)] <==> FiresNow(s, st, now, a, dryRun))
      && (line == [(s.name, SkippedOverlap)] <==>
            IsDue(s, st, now) && !Completes(s, st, now, a) && s.skipOverlap && StillRunning(a.jobs, st.lastJobs))
  {
    BusyIsNotDrained(a.queue, if s.untilEmpty.Some? then s.untilEmpty.value else "", []);
    BusyIsNotDrained(a.jobs, "", st.lastJobs);
  }

  class Daemon {
    var saved: States

    constructor ()
      ensures saved == map[]
    {
      saved := map[];
    }

    /** has_active_jobs: an unreachable board counts as nothing running. */
    method HasActiveJobs(board: Board, ids: seq<string>) returns (active: bool)
      ensures active <==> board.Some? && InFlight(board.value, ids)
    {
      if ids == [] || board.None? {
        return false;
      }
      var i := 0;
      while i < |board.value|
        invariant 0 <= i <= |board.value| && !InFlight(board.value[..i], ids)
      {
        assert board.value[..i + 1] == board.value[..i] + [board.value[i]];
        if board.value[i].id in ids && Active(board.value[i].status) {
          return true;
        }
        i := i + 1;
      }
      assert board.value[..i] == board.value;
      return false;
    }

    /** queue_is_empty: None when the board cannot be reached. */
    method QueueIsEmpty(board: Board, role: string) returns (empty: Option<bool>)
      ensures empty == if board.None? then None else Some(!RoleBusy(board.value, role))
    {
      if board.None? {
        return None;
      }
      var i := 0;
      while i < |board.value|
        invariant 0 <= i <= |board.value| && !RoleBusy(board.value[..i], role)
      {
        assert board.value[..i + 1] == board.value[..i] + [board.value[i]];
        if board.value[i].role == role && Active(board.value[i].status) {
          return Some(false);
        }
        i := i + 1;
      }
      assert board.value[..i] == board.value;
      return Some(true);
    }

    method HandleDue(s: Schedule, st: ScheduleState, now: Micros, a: Answers, dryRun: bool) returns (h: Handled)
      ensures h == Handle(s, st, now, a, dryRun)
      ensures h.action.Complete? <==> s.untilEmpty.Some? && Drained(a.queue, s.untilEmpty.value)
      ensures h.action.Fired? <==> !h.action.Complete? && !(s.skipOverlap && StillRunning(a.jobs, st.lastJobs))
                                   && !dryRun && a.launched.Some?
    {
      BusyIsNotDrained(a.queue, if s.untilEmpty.Some? then s.untilEmpty.value else "", []);
      BusyIsNotDrained(a.jobs, "", st.lastJobs);
      var state := st;
      if s.untilEmpty.Some? {
        var empty := QueueIsEmpty(a.queue, s.untilEmpty.value);
        if empty == Some(true) {
          state := state.(exhausted := Some(QueueEmpty));
          return Handled(state, Complete);
        }
      }
      if s.skipOverlap && st.lastJobs != [] {
        var busy := HasActiveJobs(a.jobs, st.lastJobs);
        if busy {
          return Handled(state, SkippedOverlap);
        }
      }
      if dryRun {
        return Handled(state, WouldFire);
      }
      if a.launched.None? {
        return Handled(state, Failed);
      }
      state := state.(iterations := state.iterations + 1);
      state := state.(lastRun := Some(now));
      state := state.(lastJobs := a.launched.value);
      var finished := ExhaustionReason(s, state, now);
      if finished.Some? {
        state := state.(exhausted := finished);
      }
      return Handled(state, Fired);
    }

    /** One schedule's turn in the pass; `changed` says that it fired or completed. */
    method PassOne(s: Schedule, states: States, now: Micros, answers: string -> Answers, dryRun: bool)
      returns (after: States, line: seq<(string, Action)>, changed: bool)
      ensures after == Turned(states, s, now, answers, dryRun)
      ensures line == Line(s, StateOf(states, s.name), now, answers(s.name), dryRun)
      ensures !changed ==> SameStates(states, after)
    {
      var st := StateOf(states, s.name);
      if !IsDue(s, st, now) {
        return states, [], false;
      }
      var h := HandleDue(s, st, now, answers(s.name), dryRun);
      return states[s.name := h.state], [(s.name, h.action)], h.action.Fired? || h.action.Complete?;
    }

    /** The loop of the pass. */
    method PassAll(config: seq<Schedule>, now: Micros, answers: string -> Answers, dryRun: bool)
      returns (states: States, report: seq<(string, Action)>, dirty: bool)
      requires DistinctNames(config)
      ensures states == PassStates(config, saved, now, answers, dryRun)
      ensures report == Report(config, saved, now, answers, dryRun)
      ensures !dirty ==> SameStates(saved, states)
    {
      states, report, dirty := saved, [], false;
      var i := 0;
      while i < |config|
        invariant 0 <= i <= |config|
        invariant states == PassStates(config[..i], saved, now, answers, dryRun)
        invariant report == Report(config[..i], saved, now, answers, dryRun)
        invariant !dirty ==> SameStates(saved, states)
      {
        assert config[..i + 1][..i] == config[..i];
        StillOwnState(config, i, saved, now, answers, dryRun);
        var line, changed;
        states, line, changed := PassOne(config[i], states, now, answers, dryRun);
        report, dirty := report + line, dirty || changed;
        i := i + 1;
      }
      assert config[..i] == config;
    }

    /** One scheduler pass over the configuration, given in name order. What is due is settled
        before anything is launched; states are saved only when a schedule fired or completed. */
    method Tick(config: seq<Schedule>, now: Micros, answers: string -> Answers, dryRun: bool)
      returns (aborted: bool, report: seq<(string, Action)>)
      requires DistinctNames(config)
      modifies this
      ensures aborted == Aborts(config, old(saved), now)
      ensures aborted ==> saved == old(saved) && report == []
      ensures !aborted ==> forall s :: s in config ==>
        StateOf(saved, s.name) == Pass(s, StateOf(old(saved), s.name), now, answers(s.name), dryRun)
        && Turn(s, StateOf(old(saved), s.name), StateOf(saved, s.name), now, answers(s.name), dryRun)
      ensures !aborted ==> report == Report(config, old(saved), now, answers, dryRun)
      ensures forall name :: (forall s :: s in config ==> s.name != name) ==>
        StateOf(saved, name) == StateOf(old(saved), name)
    {
      report := [];
      aborted := Aborts(config, saved, now);
      if aborted {
        return;
      }
      var states, dirty;
      states, report, dirty := PassAll(config, now, answers, dryRun);
      PassIsPointwise(config, saved, now, answers, dryRun);
      forall s | s in config
        ensures Turn(s, StateOf(saved, s.name), Pass(s, StateOf(saved, s.name), now, answers(s.name), dryRun), now,
                     answers(s.name), dryRun)
      {
        PassIsTurn(s, StateOf(saved, s.name), now, answers(s.name), dryRun);
      }
      if dirty {
        saved := states;
      }
    }
  }
}
