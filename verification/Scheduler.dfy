/** Schedules and loops: what the configuration parser accepts, when a schedule is due, and when
    it is finished. Times are microseconds of wall-clock time. */
module Scheduler {
  import opened Options
  import opened Cron

  type Micros = int

  function MinuteOf(t: Micros): int {
    t / 60000000
  }

  datatype Trigger = OnCron(expr: CronExpr) | Every(interval: Micros)

  datatype Schedule = Schedule(
    name: string, trigger: Trigger, enabled: bool, skipOverlap: bool, isLoop: bool,
    maxIterations: Option<int>, until: Option<Micros>, untilEmpty: Option<string>)

  datatype Reason = PastUntil | AllIterations | QueueEmpty

  datatype ScheduleState = ScheduleState(
    iterations: int, lastRun: Option<Micros>, lastJobs: seq<string>, exhausted: Option<Reason>)

  const BLANK := ScheduleState(0, None, [], None)

  // ---- Configuration ---------------------------------------------------------------------

  /** The entry as read from the file; `every` is parse_duration's number of seconds, `cron` the
      parsed expression, and None in either place an error of those parsers. */
  datatype Entry = Entry(
    cron: Option<Option<CronExpr>>, every: Option<Option<real>>, enabled: bool, overlap: string,
    maxIterations: Option<int>, until: Option<Micros>, untilEmpty: Option<string>)

  /** timedelta(seconds=x) keeps whole microseconds, halves going to the even one. */
  function ToMicros(seconds: real): Micros {
    var x := seconds * 1000000.0;
    var low := x.Floor;
    var rest := x - low as real;
    if rest < 0.5 then low
    else if rest > 0.5 then low + 1
    else if low % 2 == 0 then low else low + 1
  }

  /** _parse_schedule; None is the ScheduleConfigError. */
  function ParseSchedule(name: string, raw: Entry, isLoop: bool): Option<Schedule> {
    if raw.cron.Some? == raw.every.Some? then None
    else if raw.overlap != "skip" && raw.overlap != "allow" then None
    else if raw.maxIterations.Some? && raw.maxIterations.value < 1 then None
    else if raw.untilEmpty.Some? && !isLoop then None
    else if raw.untilEmpty.Some? && raw.maxIterations.None? then None
    else if isLoop && raw.maxIterations.None? && raw.until.None? then None
    else
      var trigger :=
        match (raw.cron, raw.every)
        case (Some(Some(expr)), _) => Some(OnCron(expr))
        case (None, Some(Some(seconds))) => if seconds <= 0.0 then None else Some(Every(ToMicros(seconds)))
        case _ => None;
      if trigger.None? then None
      else Some(Schedule(name, trigger.value, raw.enabled, raw.overlap == "skip", isLoop,
                         raw.maxIterations, raw.until, raw.untilEmpty))
  }

  // ---- Due calculation -------------------------------------------------------------------

  function ExhaustionReason(s: Schedule, st: ScheduleState, now: Micros): Option<Reason> {
    if st.exhausted.Some? then st.exhausted
    else if s.until.Some? && now > s.until.value then Some(PastUntil)
    else if s.maxIterations.Some? && st.iterations >= s.maxIterations.value then Some(AllIterations)
    else None
  }

  /** NoSuchTime is the CronExpressionError of a search that found nothing. */
  datatype NextRun = Never | At(t: Micros) | NoSuchTime

  function Max(a: int, b: int): int {
    if a >= b then a else b
  }

  /** next_run_at; a blank state and no state at all are the same to it. */
  function NextRunAt(s: Schedule, st: ScheduleState, now: Micros): NextRun {
    if !s.enabled || ExhaustionReason(s, st, now).Some? then Never
    else
      var candidate :=
        match s.trigger
        case OnCron(expr) =>
          var anchor := if st.lastRun.Some? then st.lastRun.value else now;
          (match NextMatch(expr, MinuteOf(Max(anchor, now - 60000000)))
           case None => NoSuchTime
           case Some(minute) => At(minute * 60000000))
        case Every(interval) =>
          if st.lastRun.None? then At(now) else At(st.lastRun.value + interval);
      if candidate.At? && s.until.Some? && candidate.t > s.until.value then Never else candidate
  }

  predicate IsDue(s: Schedule, st: ScheduleState, now: Micros) {
    var next := NextRunAt(s, st, now);
    next.At? && next.t <= now
  }

  predicate Live(s: Schedule, st: ScheduleState, now: Micros) {
    s.enabled && ExhaustionReason(s, st, now).None?
  }

  lemma MinuteBounds(t: Micros)
    ensures MinuteOf(t) * 60000000 <= t < MinuteOf(t) * 60000000 + 60000000
    ensures MinuteOf(t - 60000000) == MinuteOf(t) - 1
  {
  }

  lemma MinuteMonotone(a: Micros, b: Micros)
    requires a <= b
    ensures MinuteOf(a) <= MinuteOf(b)
  {
  }

  /** With a recorded run, a cron schedule is due exactly in a matching minute later than the one
      it last ran in; a minute that passed unseen is never replayed. */
  lemma CronDueExactly(s: Schedule, st: ScheduleState, now: Micros)
    requires s.trigger.OnCron? && st.lastRun.Some?
    ensures IsDue(s, st, now) <==>
      Live(s, st, now) && Matches(s.trigger.expr, MinuteOf(now)) && MinuteOf(st.lastRun.value) < MinuteOf(now)
  {
    if Live(s, st, now) {
      var expr, last := s.trigger.expr, st.lastRun.value;
      var after := MinuteOf(Max(last, now - 60000000));
      NextMatchIsLeast(expr, after);
      MinuteBounds(now);
      MinuteBounds(last);
      if last >= now - 60000000 {
        MinuteMonotone(now - 60000000, last);
      } else {
        MinuteMonotone(last, now - 60000000);
      }
      assert after == Max(MinuteOf(last), MinuteOf(now) - 1);
      CandidateDue(expr, after, now);
    }
  }

  lemma CandidateDue(expr: CronExpr, after: int, now: Micros)
    requires after >= MinuteOf(now) - 1
    ensures NextMatch(expr, after).Some? && NextMatch(expr, after).value * 60000000 <= now
        <==> after < MinuteOf(now) && Matches(expr, MinuteOf(now))
  {
    NextMatchIsLeast(expr, after);
    MinuteBounds(now);
  }

  /** With no recorded run the search starts after `now`, so a cron schedule is never due. */
  lemma CronWithoutRunNeverDue(s: Schedule, st: ScheduleState, now: Micros)
    requires s.trigger.OnCron? && st.lastRun.None?
    ensures !IsDue(s, st, now)
  {
    MinuteBounds(now);
    NextMatchIsLeast(s.trigger.expr, MinuteOf(now));
  }

  lemma EveryDueExactly(s: Schedule, st: ScheduleState, now: Micros)
    requires s.trigger.Every?
    ensures IsDue(s, st, now) <==>
      Live(s, st, now) && (st.lastRun.Some? ==> st.lastRun.value + s.trigger.interval <= now)
  {
  }

  /** All of it: a schedule is due exactly when it is switched on, not finished, within `until` and its
      iterations, and its trigger says so. */
  lemma DueExactly(s: Schedule, st: ScheduleState, now: Micros)
    ensures IsDue(s, st, now) <==>
      s.enabled && st.exhausted.None?
      && (s.until.Some? ==> now <= s.until.value) && (s.maxIterations.Some? ==> st.iterations < s.maxIterations.value)
      && match s.trigger
         case OnCron(expr) =>
           st.lastRun.Some? && Matches(expr, MinuteOf(now)) && MinuteOf(st.lastRun.value) < MinuteOf(now)
         case Every(interval) => st.lastRun.Some? ==> st.lastRun.value + interval <= now
  {
    if s.trigger.Every? {
      EveryDueExactly(s, st, now);
    } else if st.lastRun.Some? {
      CronDueExactly(s, st, now);
    } else {
      CronWithoutRunNeverDue(s, st, now);
    }
  }

  /** An entry is accepted exactly when it has one trigger, of a readable kind, a known overlap rule, a
      positive iteration count if any, and, for a loop, something that ends it. */
  lemma ParsedExactly(name: string, raw: Entry, isLoop: bool)
    ensures ParseSchedule(name, raw, isLoop).Some? <==>
      (raw.cron.Some? != raw.every.Some?)
      && (raw.cron.Some? ==> raw.cron.value.Some?)
      && (raw.every.Some? ==> raw.every.value.Some? && raw.every.value.value > 0.0)
      && (raw.overlap == "skip" || raw.overlap == "allow")
      && (raw.maxIterations.Some? ==> raw.maxIterations.value >= 1)
      && (raw.untilEmpty.Some? ==> isLoop && raw.maxIterations.Some?)
      && (isLoop ==> raw.maxIterations.Some? || raw.until.Some?)
    ensures ParseSchedule(name, raw, isLoop).Some? ==>
      var s := ParseSchedule(name, raw, isLoop).value;
      s.name == name && s.enabled == raw.enabled && s.isLoop == isLoop && s.skipOverlap == (raw.overlap == "skip")
      && s.maxIterations == raw.maxIterations && s.until == raw.until && s.untilEmpty == raw.untilEmpty
      && (raw.cron.Some? ==> s.trigger == OnCron(raw.cron.value.value))
      && (raw.every.Some? ==> s.trigger == Every(ToMicros(raw.every.value.value)))
  {
  }

  /** An interval is kept to the nearest microsecond, and one that lies halfway to the even one. */
  lemma ToMicrosNearest(seconds: real)
    ensures var x, r := seconds * 1000000.0, ToMicros(seconds);
      r as real - 0.5 <= x <= r as real + 0.5 && (x == r as real - 0.5 || x == r as real + 0.5 ==> r % 2 == 0)
  {
  }
}
