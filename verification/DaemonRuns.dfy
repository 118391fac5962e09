/** The daemon's loop of ticks, and why the laws about one schedule's run are laws about it. */
module DaemonRuns {
  import opened Scheduler
  import opened Launcher
  import opened LoopRuns

  /** When a tick happens, and what the outside world answers during it, schedule by schedule. */
  datatype Beat = Beat(now: Micros, answers: string -> Answers)

  /** The saved states after a number of ticks; a tick that raises changes nothing. */
  function StatesAfter(config: seq<Schedule>, states: States, beats: seq<Beat>): States {
    if beats == [] then states
    else
      var before, beat := StatesAfter(config, states, beats[..|beats| - 1]), beats[|beats| - 1];
      if Aborts(config, before, beat.now) then before else PassStates(config, before, beat.now, beat.answers, false)
  }

  /** What the ticks are for one schedule. */
  function InputsOf(config: seq<Schedule>, states: States, beats: seq<Beat>, name: string): (inputs: seq<Input>)
    ensures |inputs| == |beats|
  {
    if beats == [] then []
    else
      var front, beat := beats[..|beats| - 1], beats[|beats| - 1];
      InputsOf(config, states, front, name)
      + [Input(beat.now, beat.answers(name), false, Aborts(config, StatesAfter(config, states, front), beat.now))]
  }

  function ReportOf(config: seq<Schedule>, before: States, beat: Beat): seq<(string, Action)> {
    if Aborts(config, before, beat.now) then [] else Report(config, before, beat.now, beat.answers, false)
  }

  /** The reports of the ticks, in order. */
  function Reports(config: seq<Schedule>, states: States, beats: seq<Beat>): (all: seq<seq<(string, Action)>>)
    ensures |all| == |beats|
  {
    if beats == [] then []
    else
      var front := beats[..|beats| - 1];
      Reports(config, states, front) + [ReportOf(config, StatesAfter(config, states, front), beats[|beats| - 1])]
  }

  /** For each schedule, the daemon's saved state is that of the schedule's own run: nothing one
      schedule does reaches another, but for the search that finds nothing and ends the tick. */
  lemma {:induction false} DaemonIsRun(config: seq<Schedule>, states: States, beats: seq<Beat>, s: Schedule)
    requires DistinctNames(config) && s in config
    ensures StateOf(StatesAfter(config, states, beats), s.name)
      == Run(s, StateOf(states, s.name), InputsOf(config, states, beats, s.name)).state
  {
    if beats != [] {
      var front, beat := beats[..|beats| - 1], beats[|beats| - 1];
      var inputs := InputsOf(config, states, beats, s.name);
      DaemonIsRun(config, states, front, s);
      assert inputs[..|inputs| - 1] == InputsOf(config, states, front, s.name);
      PassIsPointwise(config, StatesAfter(config, states, front), beat.now, beat.answers, false);
    }
  }

  lemma {:induction false} InReport(config: seq<Schedule>, states: States, beat: Beat, s: Schedule, action: Action)
    requires DistinctNames(config)
    ensures (s.name, action) in Report(config, states, beat.now, beat.answers, false)
      <==> exists o :: o in config && o.name == s.name && IsDue(o, StateOf(states, o.name), beat.now)
             && action == Handle(o, StateOf(states, o.name), beat.now, beat.answers(o.name), false).action
  {
    if config != [] {
      InReport(config[..|config| - 1], states, beat, s, action);
      assert forall o :: o in config <==> o in config[..|config| - 1] || o == config[|config| - 1];
    }
  }

  lemma OneByName(config: seq<Schedule>, s: Schedule, o: Schedule)
    requires DistinctNames(config) && s in config && o in config && o.name == s.name
    ensures o == s
  {
    var i :| 0 <= i < |config| && config[i] == s;
    var j :| 0 <= j < |config| && config[j] == o;
  }

  lemma {:induction false} ReportsAt(config: seq<Schedule>, states: States, beats: seq<Beat>, k: nat)
    requires k < |beats|
    ensures Reports(config, states, beats)[k] == ReportOf(config, StatesAfter(config, states, beats[..k]), beats[k])
    decreases |beats|
  {
    var front := beats[..|beats| - 1];
    if k < |front| {
      ReportsAt(config, states, front, k);
      assert front[..k] == beats[..k];
    }
  }

  lemma {:induction false} InputsAt(config: seq<Schedule>, states: States, beats: seq<Beat>, name: string, k: nat)
    requires k < |beats|
    ensures var inputs, before := InputsOf(config, states, beats, name), StatesAfter(config, states, beats[..k]);
      inputs[..k] == InputsOf(config, states, beats[..k], name)
      && inputs[k] == Input(beats[k].now, beats[k].answers(name), false, Aborts(config, before, beats[k].now))
    decreases |beats|
  {
    var front := beats[..|beats| - 1];
    var inputs, earlier := InputsOf(config, states, beats, name), InputsOf(config, states, front, name);
    assert inputs[..|front|] == earlier;
    if k < |front| {
      InputsAt(config, states, front, name, k);
      assert front[..k] == beats[..k] && inputs[..k] == earlier[..k];
    }
  }

  lemma TickReports(config: seq<Schedule>, before: States, beat: Beat, s: Schedule, input: Input)
    requires DistinctNames(config) && s in config
    requires input == Input(beat.now, beat.answers(s.name), false, Aborts(config, before, beat.now))
    ensures (s.name, Fired) in ReportOf(config, before, beat) <==> Fires(s, StateOf(before, s.name), input)
  {
    InReport(config, before, beat, s, Fired);
    if o :| o in config && o.name == s.name {
      OneByName(config, s, o);
    }
  }

  /** A tick reports a schedule as fired exactly when the schedule's own run fires at that tick. */
  lemma ReportedExactly(config: seq<Schedule>, states: States, beats: seq<Beat>, s: Schedule, k: nat)
    requires DistinctNames(config) && s in config && k < |beats|
    ensures (s.name, Fired) in Reports(config, states, beats)[k]
      <==> FiredAt(Run(s, StateOf(states, s.name), InputsOf(config, states, beats, s.name)).fires, k)
  {
    var inputs := InputsOf(config, states, beats, s.name);
    ReportsAt(config, states, beats, k);
    InputsAt(config, states, beats, s.name, k);
    DaemonIsRun(config, states, beats[..k], s);
    TickReports(config, StatesAfter(config, states, beats[..k]), beats[k], s, inputs[k]);
    FiredExactly(s, StateOf(states, s.name), inputs, k);
  }

  /** run_forever over a number of ticks of an unchanged configuration. */
  method RunForever(d: Daemon, config: seq<Schedule>, beats: seq<Beat>) returns (reports: seq<seq<(string, Action)>>)
    requires DistinctNames(config)
    modifies d
    ensures SameStates(StatesAfter(config, old(d.saved), beats), d.saved)
    ensures reports == Reports(config, old(d.saved), beats)
  {
    reports := [];
    var ticks := 0;
    ghost var start := d.saved;
    while ticks < |beats|
      invariant 0 <= ticks <= |beats|
      invariant SameStates(StatesAfter(config, start, beats[..ticks]), d.saved)
      invariant reports == Reports(config, start, beats[..ticks])
    {
      var beat := beats[ticks];
      assert beats[..ticks + 1][..ticks] == beats[..ticks];
      ghost var expected, actual := StatesAfter(config, start, beats[..ticks]), d.saved;
      var aborted, report := d.Tick(config, beat.now, beat.answers, false);
      TickSame(config, expected, actual, d.saved, beat, aborted, report);
      reports := reports + [report];
      ticks := ticks + 1;
    }
    assert beats[..ticks] == beats;
  }

  lemma {:induction false} ReportSame(config: seq<Schedule>, a: States, b: States, beat: Beat)
    requires SameStates(a, b)
    ensures Report(config, a, beat.now, beat.answers, false) == Report(config, b, beat.now, beat.answers, false)
  {
    if config != [] {
      ReportSame(config[..|config| - 1], a, b, beat);
    }
  }

  /** A tick on states that only differ by blank entries has the same outcome. */
  lemma TickSame(config: seq<Schedule>, expected: States, actual: States, saved: States, beat: Beat,
                 aborted: bool, report: seq<(string, Action)>)
    requires DistinctNames(config) && SameStates(expected, actual)
    requires aborted == Aborts(config, actual, beat.now)
    requires aborted ==> saved == actual && report == []
    requires !aborted ==> report == Report(config, actual, beat.now, beat.answers, false)
    requires !aborted ==> forall s :: s in config ==>
      StateOf(saved, s.name) == Pass(s, StateOf(actual, s.name), beat.now, beat.answers(s.name), false)
    requires forall name ::
      (forall s :: s in config ==> s.name != name) ==> StateOf(saved, name) == StateOf(actual, name)
    ensures report == ReportOf(config, expected, beat)
    ensures SameStates(
      if Aborts(config, expected, beat.now) then expected
      else PassStates(config, expected, beat.now, beat.answers, false), saved)
  {
    assert Aborts(config, expected, beat.now) == aborted;
    if !aborted {
      ReportSame(config, expected, actual, beat);
      PassIsPointwise(config, expected, beat.now, beat.answers, false);
    }
  }
}
