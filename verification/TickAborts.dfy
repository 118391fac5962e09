/** When a tick is ended by a cron search that finds nothing: one schedule's search raises out of the
    tick, and none of the others gets its turn. */
module TickAborts {
  import opened Cron
  import opened CronSearch
  import opened Scheduler
  import opened Launcher
  import opened DaemonRuns

  /** The expressions come from the parser. */
  ghost predicate AllParsed(config: seq<Schedule>) {
    forall s :: s in config && s.trigger.OnCron? ==> WellFormed(s.trigger.expr)
  }

  /** Every expression in use names a day that every year has. */
  ghost predicate AllYearly(config: seq<Schedule>) {
    forall s :: s in config && s.enabled && s.trigger.OnCron? ==> Yearly(s.trigger.expr)
  }

  /** The search starts in the minute before now or later, but never later than both now and the last
      run. */
  lemma SearchStart(st: ScheduleState, now: Micros)
    ensures
      var anchor := if st.lastRun.Some? then st.lastRun.value else now;
      var after := MinuteOf(Max(anchor, now - 60000000));
      MinuteOf(now) - 1 <= after && (anchor <= now ==> after <= MinuteOf(now))
  {
    var anchor := if st.lastRun.Some? then st.lastRun.value else now;
    MinuteBounds(now);
    MinuteMonotone(now - 60000000, Max(anchor, now - 60000000));
    if anchor <= now {
      MinuteMonotone(Max(anchor, now - 60000000), now);
    }
  }

  /** No tick is aborted, whatever the states, when every expression in use names such a day. */
  lemma YearlyNeverAborts(config: seq<Schedule>, states: States, now: Micros)
    requires AllParsed(config) && AllYearly(config) && MinuteOf(now) > FIRST
    ensures !Aborts(config, states, now)
  {
    forall s | s in config && s.enabled && s.trigger.OnCron?
      ensures !NextRunAt(s, StateOf(states, s.name), now).NoSuchTime?
    {
      var st := StateOf(states, s.name);
      SearchStart(st, now);
      YearlyResolves(s.trigger.expr, MinuteOf(Max(if st.lastRun.Some? then st.lastRun.value else now, now - 60000000)));
    }
  }

  /** A minute of the gap in which searches fail, and in the minute before it too. */
  predicate Silent(now: Micros) {
    LAST_BEFORE_GAP < MinuteOf(now) && MinuteOf(now) + SEARCH < LEAP_AFTER_GAP
  }

  lemma NotYearlyAborts(config: seq<Schedule>, states: States, now: Micros, s: Schedule)
    requires s in config && s.trigger.OnCron? && WellFormed(s.trigger.expr) && !Yearly(s.trigger.expr)
    requires Silent(now) && Live(s, StateOf(states, s.name), now)
    requires var last := StateOf(states, s.name).lastRun; last.Some? ==> last.value <= now
    ensures Aborts(config, states, now)
  {
    var st := StateOf(states, s.name);
    SearchStart(st, now);
    SearchFailsInGap(s.trigger.expr,
                     MinuteOf(Max(if st.lastRun.Some? then st.lastRun.value else now, now - 60000000)));
    assert NextRunAt(s, st, now).NoSuchTime?;
  }

  /** The schedule may still run when the gap begins. */
  predicate ReachesGap(s: Schedule) {
    (s.until.Some? ==> MinuteOf(s.until.value) > LAST_BEFORE_GAP)
    && (s.maxIterations.Some? ==> s.maxIterations.value > 0)
  }

  lemma GapIsSilent(now: Micros)
    requires now == (LAST_BEFORE_GAP + 1) * 60000000
    ensures Silent(now) && MinuteOf(now) > FIRST
  {
  }

  /** A configuration of such schedules never aborts a tick, in any states and at any time, if and only
      if every expression in use names a day that every year has. */
  lemma NeverAbortsExactly(config: seq<Schedule>)
    requires AllParsed(config) && forall s :: s in config ==> ReachesGap(s)
    ensures (forall states, now :: MinuteOf(now) > FIRST ==> !Aborts(config, states, now)) <==> AllYearly(config)
  {
    if AllYearly(config) {
      forall states, now | MinuteOf(now) > FIRST ensures !Aborts(config, states, now) {
        YearlyNeverAborts(config, states, now);
      }
    } else {
      var s :| s in config && s.enabled && s.trigger.OnCron? && !Yearly(s.trigger.expr);
      var now := (LAST_BEFORE_GAP + 1) * 60000000;
      GapIsSilent(now);
      if s.until.Some? {
        MinuteBounds(s.until.value);
      }
      NotYearlyAborts(config, map[], now, s);
    }
  }

  /** One schedule that only names leap days silences the daemon for almost three years from March
      2096: every tick aborts, no schedule fires and no state changes. */
  lemma {:induction false} OneSilencesAll(config: seq<Schedule>, states: States, beats: seq<Beat>, s: Schedule)
    requires s in config && s.trigger.OnCron? && WellFormed(s.trigger.expr) && !Yearly(s.trigger.expr)
    requires forall b :: b in beats ==> Silent(b.now) && Live(s, StateOf(states, s.name), b.now)
    requires forall b :: b in beats ==>
      var last := StateOf(states, s.name).lastRun; last.Some? ==> last.value <= b.now
    ensures StatesAfter(config, states, beats) == states
    ensures forall report :: report in Reports(config, states, beats) ==> report == []
  {
    if beats != [] {
      var front, beat := beats[..|beats| - 1], beats[|beats| - 1];
      assert forall b :: b in front ==> b in beats;
      OneSilencesAll(config, states, front, s);
      assert beat in beats;
      NotYearlyAborts(config, states, beat.now, s);
    }
  }
}
