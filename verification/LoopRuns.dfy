/** One schedule over a whole run of ticks: any clock, any answers from the gateway, launches that
    fail, dry runs, and ticks that were aborted. */
module LoopRuns {
  import opened Options
  import opened Cron
  import opened Scheduler
  import opened Launcher

  datatype Input = Input(now: Micros, answers: Answers, dryRun: bool, aborted: bool)

  datatype Fire = Fire(time: Micros, jobs: seq<string>, tick: nat)

  datatype History = History(state: ScheduleState, fires: seq<Fire>)

  predicate Fires(s: Schedule, st: ScheduleState, input: Input) {
    !input.aborted && IsDue(s, st, input.now)
    && Handle(s, st, input.now, input.answers, input.dryRun).action.Fired?
  }

  function After(s: Schedule, st: ScheduleState, input: Input): ScheduleState {
    if input.aborted then st else Pass(s, st, input.now, input.answers, input.dryRun)
  }

  function Run(s: Schedule, st: ScheduleState, inputs: seq<Input>): History {
    if inputs == [] then History(st, [])
    else
      var tick, input := |inputs| - 1, inputs[|inputs| - 1];
      var before := Run(s, st, inputs[..tick]);
      History(After(s, before.state, input),
              if Fires(s, before.state, input)
              then before.fires + [Fire(input.now, input.answers.launched.value, tick)]
              else before.fires)
  }

  // ---- Counting and completion -----------------------------------------------------------

  /** `iterations` counts exactly the successful fires, and a bound M is never exceeded. */
  lemma {:induction false} LoopBound(s: Schedule, st: ScheduleState, inputs: seq<Input>)
    ensures
      var h := Run(s, st, inputs);
      h.state.iterations == st.iterations + |h.fires|
      && (s.maxIterations.Some? && st.iterations <= s.maxIterations.value ==>
            st.iterations + |h.fires| <= s.maxIterations.value)
  {
    if inputs != [] {
      LoopBound(s, st, inputs[..|inputs| - 1]);
    }
  }

  /** A recorded completion is final: nothing fires and nothing changes after it. */
  lemma {:induction false} CompletionIsSticky(s: Schedule, st: ScheduleState, inputs: seq<Input>)
    requires st.exhausted.Some?
    ensures Run(s, st, inputs) == History(st, [])
  {
    if inputs != [] {
      CompletionIsSticky(s, st, inputs[..|inputs| - 1]);
    }
  }

  /** Nothing fires after `until`. */
  lemma {:induction false} NothingAfterUntil(s: Schedule, st: ScheduleState, inputs: seq<Input>)
    requires s.until.Some?
    ensures forall f :: f in Run(s, st, inputs).fires ==> f.time <= s.until.value
  {
    if inputs != [] {
      NothingAfterUntil(s, st, inputs[..|inputs| - 1]);
    }
  }

  // ---- Spacing ---------------------------------------------------------------------------

  /** The recorded last run is the last fire, if there was one. */
  lemma {:induction false} LastRunIsLastFire(s: Schedule, st: ScheduleState, inputs: seq<Input>)
    ensures
      var h := Run(s, st, inputs);
      if h.fires == [] then h.state.lastRun == st.lastRun && h.state.lastJobs == st.lastJobs
      else h.state.lastRun == Some(h.fires[|h.fires| - 1].time) && h.state.lastJobs == h.fires[|h.fires| - 1].jobs
  {
    if inputs != [] {
      LastRunIsLastFire(s, st, inputs[..|inputs| - 1]);
    }
  }

  /** Consecutive fires of an `every` schedule are at least the interval apart, on any clock. */
  lemma {:induction false} FiresSpaced(s: Schedule, st: ScheduleState, inputs: seq<Input>)
    requires s.trigger.Every?
    ensures
      var fires := Run(s, st, inputs).fires;
      forall i :: 0 < i < |fires| ==> fires[i].time >= fires[i - 1].time + s.trigger.interval
  {
    if inputs != [] {
      var front := inputs[..|inputs| - 1];
      FiresSpaced(s, st, front);
      LastRunIsLastFire(s, st, front);
      EveryDueExactly(s, Run(s, st, front).state, inputs[|inputs| - 1].now);
    }
  }

  lemma {:induction false} SpacedApart(fires: seq<Fire>, interval: Micros, i: nat, j: nat)
    requires forall k :: 0 < k < |fires| ==> fires[k].time >= fires[k - 1].time + interval
    requires i <= j < |fires|
    ensures fires[j].time - fires[i].time >= (j - i) * interval
    decreases j
  {
    if i < j {
      SpacedApart(fires, interval, i, j - 1);
      assert (j - i) * interval == (j - 1 - i) * interval + interval;
    }
  }

  /** A window of length T holds at most T / interval + 1 of its fires. */
  lemma FiresInWindow(s: Schedule, st: ScheduleState, inputs: seq<Input>, i: nat, j: nat, window: Micros)
    requires s.trigger.Every? && s.trigger.interval > 0
    requires i <= j < |Run(s, st, inputs).fires|
    requires Run(s, st, inputs).fires[j].time - Run(s, st, inputs).fires[i].time <= window
    ensures j - i + 1 <= window / s.trigger.interval + 1
  {
    FiresSpaced(s, st, inputs);
    SpacedApart(Run(s, st, inputs).fires, s.trigger.interval, i, j);
    QuotientAtLeast(j - i, s.trigger.interval, window);
  }

  lemma SmallerFactor(m: int, n: int, k: int)
    requires k > 0 && m * k < n * k
    ensures m < n
  {
    if m >= n {
      LargerFactor(m, n, k);
    }
  }

  lemma LargerFactor(m: int, n: int, k: int)
    requires k > 0 && m >= n
    ensures m * k >= n * k
  {
    assert (m - n) * k >= 0;
  }

  lemma QuotientAtLeast(n: int, interval: int, window: int)
    requires interval > 0 && n * interval <= window
    ensures n <= window / interval
  {
    var q := window / interval;
    assert window == q * interval + window % interval;
    assert (q + 1) * interval == q * interval + interval;
    SmallerFactor(n, q + 1, interval);
  }

  /** A cron schedule fires only in matching minutes, each of them later than the one before, so
      no minute fires twice and none is made up for later. */
  lemma {:induction false} CronOncePerMinute(s: Schedule, st: ScheduleState, inputs: seq<Input>)
    requires s.trigger.OnCron? && st.lastRun.Some?
    ensures
      var h := Run(s, st, inputs);
      (forall f :: f in h.fires ==> Matches(s.trigger.expr, MinuteOf(f.time)))
      && (forall i :: 0 < i < |h.fires| ==> MinuteOf(h.fires[i - 1].time) < MinuteOf(h.fires[i].time))
      && h.state.lastRun.Some?
  {
    if inputs != [] {
      var front := inputs[..|inputs| - 1];
      CronOncePerMinute(s, st, front);
      LastRunIsLastFire(s, st, front);
      CronDueExactly(s, Run(s, st, front).state, inputs[|inputs| - 1].now);
    }
  }

  /** A cron schedule that has no recorded run never fires, however long the daemon runs: only a
      fire records a run, and only a recorded run makes it due. */
  lemma {:induction false} CronNeverStarts(s: Schedule, st: ScheduleState, inputs: seq<Input>)
    requires s.trigger.OnCron? && st.lastRun.None?
    ensures Run(s, st, inputs) == History(st, [])
  {
    if inputs != [] {
      CronNeverStarts(s, st, inputs[..|inputs| - 1]);
      CronWithoutRunNeverDue(s, st, inputs[|inputs| - 1].now);
    }
  }

  // ---- Finiteness ------------------------------------------------------------------------

  /** How often an accepted loop can fire once its clock has reached `start`. */
  function FireLimit(s: Schedule, start: Micros): nat
    requires s.maxIterations.Some? || s.until.Some?
    requires s.maxIterations.None? && s.trigger.Every? ==> s.trigger.interval > 0
  {
    if s.maxIterations.Some? then (if s.maxIterations.value > 0 then s.maxIterations.value else 0)
    else if s.until.value < start then 0
    else
      match s.trigger
      case Every(interval) => (s.until.value - start) / interval + 1
      case OnCron(_) => Max(MinuteOf(s.until.value) - MinuteOf(start) + 1, 0)
  }

  lemma {:induction false} FireTimesFrom(s: Schedule, st: ScheduleState, inputs: seq<Input>, start: Micros)
    requires forall i :: 0 <= i < |inputs| ==> inputs[i].now >= start
    ensures forall f :: f in Run(s, st, inputs).fires ==> f.time >= start
  {
    if inputs != [] {
      FireTimesFrom(s, st, inputs[..|inputs| - 1], start);
    }
  }

  lemma {:induction false} MinutesApart(fires: seq<Fire>, i: nat, j: nat)
    requires forall k :: 0 < k < |fires| ==> MinuteOf(fires[k - 1].time) < MinuteOf(fires[k].time)
    requires i <= j < |fires|
    ensures MinuteOf(fires[j].time) - MinuteOf(fires[i].time) >= j - i
    decreases j
  {
    if i < j {
      MinutesApart(fires, i, j - 1);
    }
  }

  /** Every loop the parser accepts fires only finitely often, unless it is bounded by `until`
      alone and its interval rounds to no microseconds. */
  lemma LoopsAreFinite(name: string, raw: Entry, st: ScheduleState, inputs: seq<Input>, start: Micros)
    requires ParseSchedule(name, raw, true).Some? && st.iterations >= 0
    requires forall i :: 0 <= i < |inputs| ==> inputs[i].now >= start
    requires var s := ParseSchedule(name, raw, true).value;
      s.maxIterations.None? && s.trigger.Every? ==> s.trigger.interval > 0
    ensures var s := ParseSchedule(name, raw, true).value;
      |Run(s, st, inputs).fires| <= FireLimit(s, start)
  {
    var s := ParseSchedule(name, raw, true).value;
    var fires := Run(s, st, inputs).fires;
    if fires != [] {
      var last := |fires| - 1;
      FireTimesFrom(s, st, inputs, start);
      assert fires[0] in fires && fires[last] in fires;
      if s.maxIterations.Some? {
        BoundedFires(s, st, inputs);
      } else {
        NothingAfterUntil(s, st, inputs);
        match s.trigger
        case Every(interval) =>
          FiresInWindow(s, st, inputs, 0, last, s.until.value - start);
        case OnCron(_) =>
          if st.lastRun.None? {
            CronNeverStarts(s, st, inputs);
          } else {
            CronOncePerMinute(s, st, inputs);
            MinutesApart(fires, 0, last);
            MinuteMonotone(start, fires[0].time);
            MinuteMonotone(fires[last].time, s.until.value);
          }
      }
    }
  }

  lemma {:induction false} BoundedFires(s: Schedule, st: ScheduleState, inputs: seq<Input>)
    requires s.maxIterations.Some? && st.iterations >= 0
    ensures |Run(s, st, inputs).fires| <= Max(s.maxIterations.value, 0)
  {
    LoopBound(s, st, inputs);
    if st.iterations > s.maxIterations.value {
      SpentNeverFires(s, st, inputs);
    }
  }

  lemma {:induction false} SpentNeverFires(s: Schedule, st: ScheduleState, inputs: seq<Input>)
    requires s.maxIterations.Some? && st.iterations > s.maxIterations.value
    ensures Run(s, st, inputs).fires == [] && Run(s, st, inputs).state.iterations == st.iterations
  {
    if inputs != [] {
      SpentNeverFires(s, st, inputs[..|inputs| - 1]);
    }
  }

  const QUIET := Answers(None, None, Some([]))

  function Spin(now: Micros, n: nat): seq<Input> {
    seq(n, _ => Input(now, QUIET, false, false))
  }

  /** A loop bounded by `until` alone whose interval rounds to zero fires at every tick, as often
      as the daemon ticks in one instant. */
  lemma {:induction false} ZeroIntervalFiresForever(s: Schedule, now: Micros, n: nat)
    requires s.enabled && s.trigger == Every(0) && s.maxIterations.None? && s.untilEmpty.None?
    requires s.until.Some? ==> now <= s.until.value
    ensures
      var h := Run(s, BLANK, Spin(now, n));
      |h.fires| == n && h.state == ScheduleState(n, if n == 0 then None else Some(now), [], None)
  {
    if n > 0 {
      ZeroIntervalFiresForever(s, now, n - 1);
      assert Spin(now, n)[..n - 1] == Spin(now, n - 1);
    }
  }

  /** "0.0000001" passes the parser's check for a positive interval. */
  lemma TinyIntervalRoundsToZero()
    ensures ToMicros(0.0000001) == 0
    ensures ParseSchedule("spin", Entry(None, Some(Some(0.0000001)), true, "skip", None, Some(0), None), true)
         == Some(Schedule("spin", Every(0), true, true, true, None, Some(0), None))
  {
    assert ToMicros(0.0000001) == 0;
  }

  lemma IntervalsNeverNegative(seconds: real)
    requires seconds > 0.0
    ensures ToMicros(seconds) >= 0
  {
  }

  ghost predicate From(inputs: seq<Input>, start: Micros) {
    forall i :: 0 <= i < |inputs| ==> inputs[i].now >= start
  }

  ghost predicate Bounded(s: Schedule, start: Micros, limit: nat) {
    forall inputs :: From(inputs, start) ==> |Run(s, BLANK, inputs).fires| <= limit
  }

  /** An accepted, enabled loop is bounded exactly when it counts iterations, runs on cron, or has
      an interval of at least one microsecond. */
  lemma LoopsFiniteExactly(name: string, raw: Entry, start: Micros)
    requires ParseSchedule(name, raw, true).Some? && raw.enabled
    requires raw.until.Some? ==> start <= raw.until.value
    ensures var s := ParseSchedule(name, raw, true).value;
      (exists limit: nat :: Bounded(s, start, limit))
      <==> s.maxIterations.Some? || s.trigger.OnCron? || s.trigger.interval > 0
  {
    var s := ParseSchedule(name, raw, true).value;
    if s.maxIterations.Some? || s.trigger.OnCron? || s.trigger.interval > 0 {
      forall inputs | From(inputs, start) ensures |Run(s, BLANK, inputs).fires| <= FireLimit(s, start) {
        LoopsAreFinite(name, raw, BLANK, inputs, start);
      }
      assert Bounded(s, start, FireLimit(s, start));
    } else {
      IntervalsNeverNegative(raw.every.value.value);
      forall limit: nat ensures !Bounded(s, start, limit) {
        ZeroIntervalFiresForever(s, start, limit + 1);
        assert From(Spin(start, limit + 1), start);
      }
    }
  }

  // ---- Overlap ---------------------------------------------------------------------------

  /** At every tick the board could be read, and it lists a job as in flight exactly when it is. */
  ghost predicate TrueBoards(inputs: seq<Input>, active: (nat, string) -> bool) {
    forall k: nat :: k < |inputs| ==> TrueBoard(inputs[k], k, active)
  }

  ghost predicate TrueBoard(input: Input, tick: nat, active: (nat, string) -> bool) {
    input.answers.jobs.Some?
    && forall id: string :: active(tick, id) <==> InFlight(input.answers.jobs.value, [id])
  }

  /** A job that was fired and is no longer in flight stays so. */
  ghost predicate FinishedStays(fires: seq<Fire>, active: (nat, string) -> bool) {
    forall f, id, i: nat, j: nat :: f in fires && id in f.jobs && f.tick < i <= j && active(j, id) ==> active(i, id)
  }

  ghost predicate EarlierDone(fires: seq<Fire>, active: (nat, string) -> bool, tick: nat) {
    forall f, id :: f in fires && id in f.jobs ==> !active(tick, id)
  }

  lemma FewerFires(some: seq<Fire>, all: seq<Fire>, active: (nat, string) -> bool)
    requires FinishedStays(all, active) && some <= all
    ensures FinishedStays(some, active)
  {
    assert forall f :: f in some ==> f in all;
  }

  lemma FewerInputs(inputs: seq<Input>, active: (nat, string) -> bool)
    requires TrueBoards(inputs, active) && inputs != []
    ensures TrueBoards(inputs[..|inputs| - 1], active)
  {
  }

  lemma InFlightMember(board: seq<BoardJob>, ids: seq<string>, id: string)
    requires id in ids && !InFlight(board, ids)
    ensures !InFlight(board, [id])
  {
  }

  ghost predicate TicksRise(fires: seq<Fire>, limit: nat) {
    (forall i :: 0 <= i < |fires| ==> fires[i].tick < limit)
    && forall i, j :: 0 <= i < j < |fires| ==> fires[i].tick < fires[j].tick
  }

  lemma OneMoreTick(fires: seq<Fire>, f: Fire, limit: nat)
    requires TicksRise(fires, limit) && f.tick == limit
    ensures TicksRise(fires + [f], limit + 1)
  {
  }

  lemma {:induction false} FireTicks(s: Schedule, st: ScheduleState, inputs: seq<Input>)
    ensures TicksRise(Run(s, st, inputs).fires, |inputs|)
  {
    if inputs != [] {
      var tick, input := |inputs| - 1, inputs[|inputs| - 1];
      var before := Run(s, st, inputs[..tick]);
      FireTicks(s, st, inputs[..tick]);
      if Fires(s, before.state, input) {
        OneMoreTick(before.fires, Fire(input.now, input.answers.launched.value, tick), tick);
      }
    }
  }

  ghost predicate FiredAt(fires: seq<Fire>, k: nat) {
    exists f :: f in fires && f.tick == k
  }

  lemma FiredLast(before: seq<Fire>, more: seq<Fire>, n: nat, k: nat)
    requires TicksRise(before, n) && forall f :: f in more ==> f.tick == n
    ensures FiredAt(before + more, k) <==> if k == n then more != [] else FiredAt(before, k)
  {
    if k == n && more != [] {
      assert more[0] in before + more;
    }
    if f :| f in before && f.tick == k {
      assert f in before + more;
    }
  }

  /** The run has a fire of a given tick exactly when it fires at that tick. */
  lemma {:induction false} FiredExactly(s: Schedule, st: ScheduleState, inputs: seq<Input>, k: nat)
    requires k < |inputs|
    ensures FiredAt(Run(s, st, inputs).fires, k) <==> Fires(s, Run(s, st, inputs[..k]).state, inputs[k])
    decreases |inputs|
  {
    var n, front := |inputs| - 1, inputs[..|inputs| - 1];
    FireTicks(s, st, front);
    var before := Run(s, st, front);
    var more := if Fires(s, before.state, inputs[n])
                then [Fire(inputs[n].now, inputs[n].answers.launched.value, n)] else [];
    assert Run(s, st, inputs).fires == before.fires + more;
    FiredLast(before.fires, more, n, k);
    if k < n {
      FiredExactly(s, st, front, k);
      assert front[..k] == inputs[..k];
    }
  }

  /** Whenever a generation started, every job of the earlier ones had left flight. */
  ghost predicate OneAtATime(fires: seq<Fire>, active: (nat, string) -> bool) {
    forall b :: 0 <= b < |fires| ==> EarlierDone(fires[..b], active, fires[b].tick)
  }

  lemma OneMoreGeneration(fires: seq<Fire>, f: Fire, active: (nat, string) -> bool)
    requires OneAtATime(fires, active) && EarlierDone(fires, active, f.tick)
    ensures OneAtATime(fires + [f], active)
  {
    var more := fires + [f];
    forall b | 0 <= b < |more| ensures EarlierDone(more[..b], active, more[b].tick) {
      if b < |fires| {
        assert more[..b] == fires[..b];
      } else {
        assert more[..b] == fires;
      }
    }
  }

  /** Under `overlap: skip`, with a gateway that answers truly, a new generation starts only when
      every job of every earlier one has left flight: at most one generation is ever running. */
  lemma {:induction false} NoOverlap(s: Schedule, inputs: seq<Input>, active: (nat, string) -> bool)
    requires s.skipOverlap && TrueBoards(inputs, active)
    requires FinishedStays(Run(s, BLANK, inputs).fires, active)
    ensures OneAtATime(Run(s, BLANK, inputs).fires, active)
  {
    if inputs != [] {
      var tick, input := |inputs| - 1, inputs[|inputs| - 1];
      var front := inputs[..tick];
      var before := Run(s, BLANK, front);
      FewerFires(before.fires, Run(s, BLANK, inputs).fires, active);
      FewerInputs(inputs, active);
      NoOverlap(s, front, active);
      if Fires(s, before.state, input) {
        FireTicks(s, BLANK, front);
        LastRunIsLastFire(s, BLANK, front);
        assert TrueBoard(inputs[tick], tick, active);
        LastGenerationDone(s, before, input, tick, active);
        EarlierGenerationsDone(before.fires, active, tick);
        OneMoreGeneration(before.fires, Fire(input.now, input.answers.launched.value, tick), active);
      }
    }
  }

  lemma LastGenerationDone(s: Schedule, before: History, input: Input, tick: nat, active: (nat, string) -> bool)
    requires s.skipOverlap && Fires(s, before.state, input) && TrueBoard(input, tick, active)
    requires before.fires != [] ==> before.state.lastJobs == before.fires[|before.fires| - 1].jobs
    ensures before.fires != [] ==>
      forall id :: id in before.fires[|before.fires| - 1].jobs ==> !active(tick, id)
  {
    forall id | id in before.state.lastJobs ensures !active(tick, id) {
      InFlightMember(input.answers.jobs.value, before.state.lastJobs, id);
    }
  }

  lemma EarlierGenerationsDone(fires: seq<Fire>, active: (nat, string) -> bool, tick: nat)
    requires FinishedStays(fires, active)
    requires TicksRise(fires, tick) && OneAtATime(fires, active)
    requires fires != [] ==> forall id :: id in fires[|fires| - 1].jobs ==> !active(tick, id)
    ensures EarlierDone(fires, active, tick)
  {
    forall f, id | f in fires && id in f.jobs ensures !active(tick, id) {
      var a :| 0 <= a < |fires| && fires[a] == f;
      if a < |fires| - 1 {
        var last := fires[|fires| - 1];
        assert fires[..|fires| - 1][a] == f;
        assert EarlierDone(fires[..|fires| - 1], active, last.tick) && !active(last.tick, id);
        assert last in fires && f.tick < last.tick <= tick;
      }
    }
  }

  // ---- Every iteration comes -------------------------------------------------------------

  /** Nothing outside keeps the schedule from firing at this tick. */
  ghost predicate Ready(s: Schedule, input: Input) {
    !input.aborted && !input.dryRun && input.answers.launched.Some?
    && (s.skipOverlap && input.answers.jobs.Some? ==> forall j :: j in input.answers.jobs.value ==> j.status.Done?)
    && (s.untilEmpty.Some? ==> !Drained(input.answers.queue, s.untilEmpty.value))
    && (s.until.Some? ==> input.now <= s.until.value)
  }

  ghost predicate ReadyApart(s: Schedule, inputs: seq<Input>)
    requires s.trigger.Every?
  {
    (forall i :: 0 <= i < |inputs| ==> Ready(s, inputs[i]))
    && forall i :: 0 < i < |inputs| ==> inputs[i].now >= inputs[i - 1].now + s.trigger.interval
  }

  /** Where a schedule that fired at each of n ready ticks stands. */
  ghost predicate Standing(s: Schedule, h: History, inputs: seq<Input>) {
    var n := |inputs|;
    if s.maxIterations.Some? && n >= s.maxIterations.value
    then |h.fires| == s.maxIterations.value && h.state.exhausted.Some?
    else
      |h.fires| == n && h.state.exhausted.None? && h.state.iterations == n
      && (if n == 0 then h.state.lastRun.None? else h.state.lastRun == Some(inputs[n - 1].now))
  }

  lemma ReadyFires(s: Schedule, st: ScheduleState, input: Input)
    requires Ready(s, input) && s.trigger.Every? && s.enabled && st.exhausted.None?
    requires s.maxIterations.Some? ==> st.iterations < s.maxIterations.value
    requires st.lastRun.Some? ==> st.lastRun.value + s.trigger.interval <= input.now
    ensures Fires(s, st, input)
    ensures var after := After(s, st, input);
      after.iterations == st.iterations + 1 && after.lastRun == Some(input.now)
      && (after.exhausted.Some? <==> s.maxIterations.Some? && st.iterations + 1 >= s.maxIterations.value)
  {
    DueExactly(s, st, input.now);
    PassIsTurn(s, st, input.now, input.answers, input.dryRun);
    LineExactly(s, st, input.now, input.answers, input.dryRun);
  }

  lemma ReadyStep(s: Schedule, h: History, inputs: seq<Input>, tick: nat)
    requires s.trigger.Every? && s.enabled && tick < |inputs| && ReadyApart(s, inputs)
    requires s.maxIterations.Some? && tick >= s.maxIterations.value ==> h.state.exhausted.Some?
    requires Standing(s, h, inputs[..tick])
    ensures Fires(s, h.state, inputs[tick]) <==> !(s.maxIterations.Some? && tick >= s.maxIterations.value)
    ensures var after := After(s, h.state, inputs[tick]);
      if s.maxIterations.Some? && tick >= s.maxIterations.value then after == h.state
      else after.iterations == tick + 1 && after.lastRun == Some(inputs[tick].now)
           && (after.exhausted.Some? <==> s.maxIterations.Some? && tick + 1 >= s.maxIterations.value)
  {
    if s.maxIterations.Some? && tick >= s.maxIterations.value {
      DueExactly(s, h.state, inputs[tick].now);
    } else {
      ReadyFires(s, h.state, inputs[tick]);
    }
  }

  /** An interval schedule that nothing keeps from firing, ticked at least its interval apart, fires at
      every tick until its iterations are used up: exactly as often as it says. */
  lemma {:induction false} FiresAsOftenAsItSays(s: Schedule, inputs: seq<Input>)
    requires s.trigger.Every? && s.enabled && ReadyApart(s, inputs)
    requires s.maxIterations.Some? ==> s.maxIterations.value >= 1
    ensures Standing(s, Run(s, BLANK, inputs), inputs)
    ensures var fires := Run(s, BLANK, inputs).fires;
      |fires| == if s.maxIterations.Some? && s.maxIterations.value < |inputs| then s.maxIterations.value else |inputs|
  {
    if inputs != [] {
      var tick := |inputs| - 1;
      FiresAsOftenAsItSays(s, inputs[..tick]);
      ReadyStep(s, Run(s, BLANK, inputs[..tick]), inputs, tick);
    }
  }
}
