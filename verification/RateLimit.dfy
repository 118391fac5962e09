/** The token buckets of the gateway. Calls come one after another on a clock that does not go
    back; the clock reads within one call are taken as one instant. */
module RateLimit {
  import opened Options

  datatype Tokens = Tokens(tokens: real, last: real)

  datatype State = State(buckets: map<string, Tokens>, lastGc: real)

  datatype Limits = Limits(capacity: real, rate: real)

  datatype Call = Call(id: string, time: real)

  /** The factory's limits: `limit` requests a minute, at least one. */
  function PerMinute(limit: nat): Limits {
    Limits(limit as real, limit as real / 60.0)
  }

  function Min(a: real, b: real): real {
    if a <= b then a else b
  }

  function Refill(elapsed: real, rate: real): real {
    elapsed * rate
  }

  function Refilled(b: Tokens, now: real, l: Limits): real {
    Min(l.capacity, b.tokens + Refill(now - b.last, l.rate))
  }

  predicate Enough(b: Tokens, now: real, l: Limits) {
    Refilled(b, now, l) >= 1.0
  }

  function Consumed(b: Tokens, now: real, l: Limits): Tokens {
    Tokens(if Enough(b, now, l) then Refilled(b, now, l) - 1.0 else Refilled(b, now, l), now)
  }

  /** The caller's bucket, made full when there is none. */
  function BucketOf(s: State, c: Call, l: Limits): Tokens {
    if c.id in s.buckets then s.buckets[c.id] else Tokens(l.capacity, c.time)
  }

  function Collected(buckets: map<string, Tokens>, l: Limits): map<string, Tokens> {
    map k | k in buckets && buckets[k].tokens < l.capacity :: buckets[k]
  }

  predicate Allowed(s: State, c: Call, l: Limits) {
    Enough(BucketOf(s, c, l), c.time, l)
  }

  /** is_allowed: fetch or create, collect, then charge the fetched bucket, collected or not. */
  function Step(s: State, c: Call, l: Limits): State {
    var b := BucketOf(s, c, l);
    var all := s.buckets[c.id := b];
    var gc := c.time - s.lastGc >= 60.0;
    var kept := if gc then Collected(all, l) else all;
    State(if c.id in kept then kept[c.id := Consumed(b, c.time, l)] else kept, if gc then c.time else s.lastGc)
  }

  function Run(s: State, calls: seq<Call>, l: Limits): State {
    if calls == [] then s else Step(Run(s, calls[..|calls| - 1], l), calls[|calls| - 1], l)
  }

  /** How many of the identity's calls are allowed. */
  function Count(s: State, calls: seq<Call>, id: string, l: Limits): nat {
    if calls == [] then 0
    else
      var before, c := calls[..|calls| - 1], calls[|calls| - 1];
      Count(s, before, id, l) + if c.id == id && Allowed(Run(s, before, l), c, l) then 1 else 0
  }

  ghost predicate InOrder(calls: seq<Call>, start: real) {
    (forall i :: 0 <= i < |calls| ==> calls[i].time >= start)
    && forall i, j :: 0 <= i < j < |calls| ==> calls[i].time <= calls[j].time
  }

  // ---- Between calls ---------------------------------------------------------------------

  ghost predicate Sound(s: State, now: real, l: Limits) {
    l.capacity >= 1.0 && l.rate >= 0.0 && s.lastGc <= now
    && forall k :: k in s.buckets ==> 0.0 <= s.buckets[k].tokens < l.capacity && s.buckets[k].last <= now
  }

  lemma RefillGrows(elapsed: real, rate: real)
    requires elapsed >= 0.0 && rate >= 0.0
    ensures Refill(elapsed, rate) >= 0.0
  {
  }

  /** A charged bucket is never full: it ends below the capacity, and not in debt. */
  lemma ChargedNotFull(b: Tokens, now: real, l: Limits)
    requires l.capacity >= 1.0 && l.rate >= 0.0 && 0.0 <= b.tokens <= l.capacity && b.last <= now
    ensures 0.0 <= Consumed(b, now, l).tokens < l.capacity
  {
    RefillGrows(now - b.last, l.rate);
  }

  lemma StepSound(s: State, c: Call, l: Limits)
    requires Sound(s, c.time, l)
    ensures Sound(Step(s, c, l), c.time, l)
  {
    ChargedNotFull(BucketOf(s, c, l), c.time, l);
  }

  /** The sweep finds no idle bucket to drop: one that has served a call is never full again as
      stored, so at most the bucket made by the very same call is collected. */
  lemma SweepDropsNothingStored(s: State, c: Call, l: Limits)
    requires Sound(s, c.time, l)
    ensures var after := Step(s, c, l);
      s.buckets.Keys <= after.buckets.Keys <= s.buckets.Keys + {c.id}
      && (c.id !in after.buckets <==> c.id !in s.buckets && c.time - s.lastGc >= 60.0)
      && (c.id in after.buckets ==> after.buckets[c.id] == Consumed(BucketOf(s, c, l), c.time, l))
      && (forall k :: k in s.buckets && k != c.id ==> after.buckets[k] == s.buckets[k])
      && after.lastGc == (if c.time - s.lastGc >= 60.0 then c.time else s.lastGc)
  {
  }

  lemma {:induction false} RunSound(s: State, calls: seq<Call>, l: Limits, start: real, now: real)
    requires Sound(s, start, l) && InOrder(calls, start) && start <= now
    requires forall i :: 0 <= i < |calls| ==> calls[i].time <= now
    ensures Sound(Run(s, calls, l), now, l)
  {
    if calls != [] {
      var last := calls[|calls| - 1];
      RunSound(s, calls[..|calls| - 1], l, start, last.time);
      StepSound(Run(s, calls[..|calls| - 1], l), last, l);
    }
  }

  // ---- The window bound ------------------------------------------------------------------

  /** What `count` allowed calls since `start` leave of the identity's allowance, where `pace` is at
      least the refill rate and at least one call a minute. */
  ghost predicate Paid(s: State, id: string, count: nat, start: real, l: Limits, pace: real) {
    count == 0
    || (if id in s.buckets then
          s.buckets[id].last >= start
          && count as real + s.buckets[id].tokens <= l.capacity + 1.0 + pace * (s.buckets[id].last - start)
        else s.lastGc >= start && count as real <= 1.0 + pace * (s.lastGc - start))
  }

  lemma Split(pace: real, a: real, b: real, c: real)
    ensures pace * (b - a) + pace * (c - b) == pace * (c - a)
  {
  }

  lemma PaceGrows(pace: real, elapsed: real)
    requires pace >= 0.0 && elapsed >= 0.0
    ensures pace * elapsed >= 0.0
  {
  }

  lemma LaterBound(spent: real, base: real, pace: real, start: real, last: real, end: real)
    requires pace >= 0.0 && last <= end && spent <= base + pace * (last - start)
    ensures spent <= base + pace * (end - start)
  {
    PaceGrows(pace, end - last);
    Split(pace, start, last, end);
  }

  lemma Faster(slow: real, fast: real, elapsed: real)
    requires slow <= fast && elapsed >= 0.0
    ensures Refill(elapsed, slow) <= fast * elapsed
  {
    RefillGrows(elapsed, fast - slow);
  }

  lemma StepPaid(s: State, c: Call, id: string, count: nat, start: real, l: Limits, pace: real)
    requires Sound(s, c.time, l) && pace >= l.rate && pace * 60.0 >= 1.0 && start <= c.time
    requires Paid(s, id, count, start, l, pace)
    ensures Paid(Step(s, c, l), id, count + (if c.id == id && Allowed(s, c, l) then 1 else 0), start, l, pace)
  {
    if c.id != id {
      OthersPaid(s, c, id, count, start, l, pace);
    } else if id in s.buckets {
      ChargeKnown(s, c, count, start, l, pace);
    } else {
      ChargeNew(s, c, count, start, l, pace);
    }
  }

  lemma OthersPaid(s: State, c: Call, id: string, count: nat, start: real, l: Limits, pace: real)
    requires Sound(s, c.time, l) && pace >= 0.0 && start <= c.time
    requires c.id != id && Paid(s, id, count, start, l, pace)
    ensures Paid(Step(s, c, l), id, count, start, l, pace)
  {
    SweepDropsNothingStored(s, c, l);
    if count > 0 && id !in s.buckets {
      LaterBound(count as real, 1.0, pace, start, s.lastGc, c.time);
    }
  }

  lemma ChargeKnown(s: State, c: Call, count: nat, start: real, l: Limits, pace: real)
    requires Sound(s, c.time, l) && pace >= l.rate && start <= c.time
    requires c.id in s.buckets && Paid(s, c.id, count, start, l, pace)
    ensures Paid(Step(s, c, l), c.id, count + (if Allowed(s, c, l) then 1 else 0), start, l, pace)
  {
    SweepDropsNothingStored(s, c, l);
    PaidAfter(Step(s, c, l), s.buckets[c.id], c, count, start, l, pace);
  }

  lemma PaidAfter(after: State, b: Tokens, c: Call, count: nat, start: real, l: Limits, pace: real)
    requires pace >= l.rate >= 0.0 && b.last <= c.time && start <= c.time && b.tokens <= l.capacity
    requires count == 0 || (b.last >= start
      && count as real + b.tokens <= l.capacity + 1.0 + pace * (b.last - start))
    requires c.id in after.buckets && after.buckets[c.id] == Consumed(b, c.time, l)
    ensures Paid(after, c.id, count + (if Enough(b, c.time, l) then 1 else 0), start, l, pace)
  {
    ChargeBucket(b, c.time, count, start, l, pace);
  }

  /** A charge spends what is refilled, whatever the allowance before and after it is. */
  lemma Spends(b: Tokens, now: real, count: nat, l: Limits, before: real, after: real)
    requires b.tokens <= l.capacity && before + Refill(now - b.last, l.rate) <= after && after >= 0.0
    requires count == 0 || count as real + b.tokens <= l.capacity + 1.0 + before
    ensures var charged, total := Consumed(b, now, l), count + if Enough(b, now, l) then 1 else 0;
      total as real + charged.tokens <= l.capacity + 1.0 + after
  {
  }

  /** Charging a bucket spends what it refilled. */
  lemma ChargeBucket(b: Tokens, now: real, count: nat, start: real, l: Limits, pace: real)
    requires pace >= l.rate >= 0.0 && b.last <= now && start <= now && b.tokens <= l.capacity
    requires count == 0 || (b.last >= start
      && count as real + b.tokens <= l.capacity + 1.0 + pace * (b.last - start))
    ensures var charged, total := Consumed(b, now, l), count + if Enough(b, now, l) then 1 else 0;
      total as real + charged.tokens <= l.capacity + 1.0 + pace * (now - start)
  {
    Faster(l.rate, pace, now - b.last);
    PaceGrows(pace, now - start);
    Split(pace, start, b.last, now);
    Spends(b, now, count, l, pace * (b.last - start), pace * (now - start));
  }

  lemma ChargeNew(s: State, c: Call, count: nat, start: real, l: Limits, pace: real)
    requires Sound(s, c.time, l) && pace * 60.0 >= 1.0 && pace >= l.rate && start <= c.time
    requires c.id !in s.buckets && Paid(s, c.id, count, start, l, pace)
    ensures Paid(Step(s, c, l), c.id, count + (if Allowed(s, c, l) then 1 else 0), start, l, pace)
  {
    SweepDropsNothingStored(s, c, l);
    NewBucketAllows(s, c, l);
    var since := pace * (c.time - s.lastGc);
    assert since >= 0.0 by { PaceGrows(pace, c.time - s.lastGc); }
    assert pace * (c.time - start) >= 0.0 by { PaceGrows(pace, c.time - start); }
    assert pace * (s.lastGc - start) + since == pace * (c.time - start) by { Split(pace, start, s.lastGc, c.time); }
    if c.time - s.lastGc >= 60.0 {
      assert since >= 1.0 by { AMinuteApart(pace, c.time - s.lastGc); }
    }
  }

  lemma AMinuteApart(pace: real, elapsed: real)
    requires pace * 60.0 >= 1.0 && elapsed >= 60.0
    ensures pace * elapsed >= 1.0
  {
    PaceGrows(pace, elapsed - 60.0);
  }

  lemma NoTimeNoRefill(elapsed: real, rate: real)
    requires elapsed == 0.0
    ensures Refill(elapsed, rate) == 0.0
  {
  }

  lemma NewBucketAllows(s: State, c: Call, l: Limits)
    requires l.capacity >= 1.0 && c.id !in s.buckets
    ensures Allowed(s, c, l) && Consumed(BucketOf(s, c, l), c.time, l) == Tokens(l.capacity - 1.0, c.time)
  {
    NoTimeNoRefill(c.time - c.time, l.rate);
  }

  lemma {:induction false} RunPaid(s: State, calls: seq<Call>, id: string, start: real, l: Limits, pace: real)
    requires Sound(s, start, l) && InOrder(calls, start) && pace >= l.rate && pace * 60.0 >= 1.0
    ensures Paid(Run(s, calls, l), id, Count(s, calls, id, l), start, l, pace)
  {
    if calls != [] {
      var before, c := calls[..|calls| - 1], calls[|calls| - 1];
      RunPaid(s, before, id, start, l, pace);
      RunSound(s, before, l, start, c.time);
      StepPaid(Run(s, before, l), c, id, Count(s, before, id, l), start, l, pace);
    }
  }

  /** In any window of length T an identity is allowed at most capacity + 1 + pace * T requests,
      where the pace is the refill rate, or one request a minute if that is slower. The one on top
      is a bucket made and collected in one call. */
  lemma WindowBound(earlier: seq<Call>, window: seq<Call>, id: string, l: Limits, pace: real,
                    created: real, start: real, end: real)
    requires l.capacity >= 1.0 && 0.0 <= l.rate <= pace && pace * 60.0 >= 1.0
    requires window != [] && start == window[0].time && end == window[|window| - 1].time
    requires InOrder(earlier + window, created)
    ensures Count(Run(State(map[], created), earlier, l), window, id, l) as real
         <= l.capacity + 1.0 + pace * (end - start)
  {
    OrderSplit(earlier, window, created);
    RunSound(State(map[], created), earlier, l, created, start);
    CountInWindow(Run(State(map[], created), earlier, l), window, id, l, pace, start, end);
  }

  /** Every limit the factory builds refills at least one request a minute. */
  lemma FactoryPace(limit: nat)
    requires limit >= 1
    ensures var l := PerMinute(limit);
      l.capacity == limit as real && l.capacity >= 1.0 && l.rate >= 0.0 && l.rate * 60.0 >= 1.0
      && l.rate * 60.0 == l.capacity
  {
  }

  lemma OrderSplit(earlier: seq<Call>, window: seq<Call>, created: real)
    requires window != [] && InOrder(earlier + window, created)
    ensures InOrder(earlier, created) && InOrder(window, window[0].time) && created <= window[0].time
    ensures forall i :: 0 <= i < |earlier| ==> earlier[i].time <= window[0].time
  {
    var all := earlier + window;
    assert forall i :: 0 <= i < |window| ==> window[i] == all[|earlier| + i];
    assert forall i :: 0 <= i < |earlier| ==> earlier[i] == all[i];
  }

  lemma CountInWindow(s: State, window: seq<Call>, id: string, l: Limits, pace: real, start: real, end: real)
    requires Sound(s, start, l) && InOrder(window, start) && start <= end
    requires pace >= l.rate && pace * 60.0 >= 1.0 && pace >= 0.0
    requires forall i :: 0 <= i < |window| ==> window[i].time <= end
    ensures Count(s, window, id, l) as real <= l.capacity + 1.0 + pace * (end - start)
  {
    RunPaid(s, window, id, start, l, pace);
    RunSound(s, window, l, start, end);
    PaidIsBound(Run(s, window, l), id, Count(s, window, id, l), start, end, l, pace);
  }

  lemma PaidIsBound(s: State, id: string, count: nat, start: real, end: real, l: Limits, pace: real)
    requires Sound(s, end, l) && Paid(s, id, count, start, l, pace) && pace >= 0.0 && start <= end
    ensures count as real <= l.capacity + 1.0 + pace * (end - start)
  {
    if count == 0 {
      RefillGrows(end - start, pace);
    } else if id in s.buckets {
      var b := s.buckets[id];
      assert b.tokens >= 0.0;
      LaterBound(count as real + b.tokens, l.capacity + 1.0, pace, start, b.last, end);
    } else {
      LaterBound(count as real, 1.0, pace, start, s.lastGc, end);
    }
  }

  /** The extra request is real: with a capacity of one, two calls in the same instant pass. */
  lemma ExtraRequestHappens(id: string)
    ensures Count(State(map[], 0.0), [Call(id, 60.0), Call(id, 60.0)], id, PerMinute(1)) == 2
  {
    var l, c := PerMinute(1), Call(id, 60.0);
    assert [c, c][..1] == [c] && [c][..0] == [];
    assert Run(State(map[], 0.0), [c], l) == State(map[], 60.0);
    assert Count(State(map[], 0.0), [], id, l) == 0;
    assert Count(State(map[], 0.0), [c], id, l) == 1;
  }

  // ---- Never refused ---------------------------------------------------------------------

  /** The buckets remember when their owners last called. */
  ghost predicate Remembers(s: State, calls: seq<Call>) {
    forall k :: k in s.buckets ==>
      exists i :: 0 <= i < |calls| && calls[i] == Call(k, s.buckets[k].last)
  }

  lemma {:induction false} RunRemembers(calls: seq<Call>, l: Limits, created: real)
    requires InOrder(calls, created) && l.capacity >= 1.0 && l.rate >= 0.0
    ensures Remembers(Run(State(map[], created), calls, l), calls)
  {
    if calls != [] {
      var before, c := calls[..|calls| - 1], calls[|calls| - 1];
      RunRemembers(before, l, created);
      RunSound(State(map[], created), before, l, created, c.time);
      var s := Run(State(map[], created), before, l);
      SweepDropsNothingStored(s, c, l);
      var s' := Step(s, c, l);
      forall k | k in s'.buckets ensures exists i :: 0 <= i < |calls| && calls[i] == Call(k, s'.buckets[k].last) {
        if k == c.id {
          assert calls[|calls| - 1] == Call(k, s'.buckets[k].last);
        } else {
          var i :| 0 <= i < |before| && before[i] == Call(k, s.buckets[k].last);
          assert calls[i] == before[i];
        }
      }
    }
  }

  lemma RefilledEnough(b: Tokens, now: real, l: Limits)
    requires b.tokens >= 0.0 && l.capacity >= 1.0 && Refill(now - b.last, l.rate) >= 1.0
    ensures Enough(b, now, l)
  {
  }

  /** A request that comes at least 1 / rate after every earlier one of its caller is allowed. */
  lemma SpacedNeverRefused(calls: seq<Call>, c: Call, l: Limits, created: real)
    requires InOrder(calls + [c], created) && l.capacity >= 1.0 && l.rate >= 0.0
    requires forall i :: 0 <= i < |calls| && calls[i].id == c.id ==> Refill(c.time - calls[i].time, l.rate) >= 1.0
    ensures Allowed(Run(State(map[], created), calls, l), c, l)
  {
    OrderSplit(calls, [c], created);
    RunRemembers(calls, l, created);
    RunSound(State(map[], created), calls, l, created, c.time);
    RestedAllowed(Run(State(map[], created), calls, l), calls, c, l);
  }

  lemma RestedAllowed(s: State, calls: seq<Call>, c: Call, l: Limits)
    requires Sound(s, c.time, l) && Remembers(s, calls)
    requires forall i :: 0 <= i < |calls| && calls[i].id == c.id ==> Refill(c.time - calls[i].time, l.rate) >= 1.0
    ensures Allowed(s, c, l)
  {
    if c.id in s.buckets {
      var i :| 0 <= i < |calls| && calls[i] == Call(c.id, s.buckets[c.id].last);
      RefilledEnough(s.buckets[c.id], c.time, l);
    } else {
      NewBucketAllows(s, c, l);
    }
  }

  // ---- Enough is allowed -----------------------------------------------------------------

  /** When the identity first and last called. */
  function FirstCall(calls: seq<Call>, id: string): Option<real> {
    if calls == [] then None
    else if FirstCall(calls[..|calls| - 1], id).Some? then FirstCall(calls[..|calls| - 1], id)
    else if calls[|calls| - 1].id == id then Some(calls[|calls| - 1].time) else None
  }

  function LastCall(calls: seq<Call>, id: string): Option<real> {
    if calls == [] then None
    else if calls[|calls| - 1].id == id then Some(calls[|calls| - 1].time)
    else LastCall(calls[..|calls| - 1], id)
  }

  /** Between one call of the identity and its next no more is refilled than a share of the tokens that
      an allowed call stands for, and than fits on top of what a refusal leaves. */
  predicate SmallGap(elapsed: real, l: Limits, share: real) {
    Refill(elapsed, l.rate) <= share && Refill(elapsed, l.rate) <= share + l.capacity - 2.0
  }

  predicate GapAt(calls: seq<Call>, i: nat, id: string, l: Limits, share: real)
    requires i < |calls|
  {
    var last := LastCall(calls[..i], id);
    calls[i].id == id && last.Some? ==> SmallGap(calls[i].time - last.value, l, share)
  }

  ghost predicate KeepsCalling(calls: seq<Call>, id: string, l: Limits, share: real) {
    forall i :: 0 <= i < |calls| ==> GapAt(calls, i, id, l, share)
  }

  /** What a number of calls is worth in tokens. */
  function Worth(count: nat, share: real): real {
    Refill(count as real, share)
  }

  lemma WorthNext(count: nat, share: real)
    ensures Worth(count + 1, share) == Worth(count, share) + share
    ensures Worth(0, share) == 0.0
  {
  }

  lemma RefillAdds(a: real, b: real, rate: real)
    ensures Refill(a + b, rate) == Refill(a, rate) + Refill(b, rate)
  {
  }

  /** The allowed calls and the tokens left are worth the capacity and all that was refilled since the
      first call; a bucket that was collected is worth a full one. */
  ghost predicate Earned(s: State, id: string, count: nat, first: Option<real>, last: Option<real>, l: Limits,
                         share: real)
  {
    first.Some? == last.Some?
    && (if id in s.buckets then
          last.Some? && s.buckets[id].last == last.value
          && (s.buckets[id].tokens <= l.capacity - 1.0 || s.buckets[id].tokens < 1.0)
          && Worth(count, share) + s.buckets[id].tokens >= l.capacity + Refill(last.value - first.value, l.rate)
        else if last.None? then count == 0
        else Worth(count, share) >= share + Refill(last.value - first.value, l.rate))
  }

  /** One call on a bucket the identity has. */
  lemma ChargeEarns(b: Tokens, now: real, count: nat, first: real, l: Limits, share: real)
    requires share >= 1.0 && l.capacity >= 1.0 && l.rate >= 0.0 && b.last <= now && b.tokens >= 0.0
    requires b.tokens <= l.capacity - 1.0 || b.tokens < 1.0
    requires SmallGap(now - b.last, l, share)
    requires Worth(count, share) + b.tokens >= l.capacity + Refill(b.last - first, l.rate)
    ensures var after, total := Consumed(b, now, l), count + if Enough(b, now, l) then 1 else 0;
      (after.tokens <= l.capacity - 1.0 || after.tokens < 1.0)
      && Worth(total, share) + after.tokens >= l.capacity + Refill(now - first, l.rate)
  {
    WorthNext(count, share);
    RefillGrows(now - b.last, l.rate);
    assert Refill(now - first, l.rate) == Refill(b.last - first, l.rate) + Refill(now - b.last, l.rate) by {
      RefillAdds(b.last - first, now - b.last, l.rate);
      assert now - first == (b.last - first) + (now - b.last);
    }
  }

  lemma OwnCallEarns(s: State, c: Call, count: nat, first: Option<real>, last: Option<real>, l: Limits, share: real)
    requires Sound(s, c.time, l) && Earned(s, c.id, count, first, last, l, share) && share >= 1.0
    requires last.Some? ==> last.value <= c.time && SmallGap(c.time - last.value, l, share)
    ensures Earned(Step(s, c, l), c.id, count + (if Allowed(s, c, l) then 1 else 0),
                   if first.Some? then first else Some(c.time), Some(c.time), l, share)
  {
    SweepDropsNothingStored(s, c, l);
    if c.id in s.buckets {
      ChargeEarns(s.buckets[c.id], c.time, count, first.value, l, share);
    } else {
      NewBucketAllows(s, c, l);
      WorthNext(count, share);
      NoTimeNoRefill(c.time - c.time, l.rate);
      if first.Some? {
        RefillAdds(last.value - first.value, c.time - last.value, l.rate);
        assert c.time - first.value == (last.value - first.value) + (c.time - last.value);
      }
    }
  }

  lemma OthersEarn(s: State, c: Call, id: string, count: nat, first: Option<real>, last: Option<real>, l: Limits,
                   share: real)
    requires Sound(s, c.time, l) && Earned(s, id, count, first, last, l, share) && c.id != id
    ensures Earned(Step(s, c, l), id, count, first, last, l, share)
  {
    SweepDropsNothingStored(s, c, l);
  }

  lemma {:induction false} LastCallBefore(calls: seq<Call>, id: string, start: real, now: real)
    requires InOrder(calls, start) && forall i :: 0 <= i < |calls| ==> calls[i].time <= now
    ensures LastCall(calls, id).Some? ==> LastCall(calls, id).value <= now
  {
    if calls != [] {
      LastCallBefore(calls[..|calls| - 1], id, start, now);
    }
  }

  lemma CallEarns(s: State, c: Call, id: string, count: nat, first: Option<real>, last: Option<real>, l: Limits,
                  share: real)
    requires Sound(s, c.time, l) && Earned(s, id, count, first, last, l, share) && share >= 1.0
    requires last.Some? ==> last.value <= c.time && (c.id == id ==> SmallGap(c.time - last.value, l, share))
    ensures Earned(Step(s, c, l), id, count + (if c.id == id && Allowed(s, c, l) then 1 else 0),
                   if first.None? && c.id == id then Some(c.time) else first,
                   if c.id == id then Some(c.time) else last, l, share)
  {
    if c.id == id {
      OwnCallEarns(s, c, count, first, last, l, share);
    } else {
      OthersEarn(s, c, id, count, first, last, l, share);
    }
  }

  lemma {:induction false} RunEarns(calls: seq<Call>, id: string, l: Limits, created: real, share: real)
    requires InOrder(calls, created) && l.capacity >= 1.0 && l.rate >= 0.0 && share >= 1.0
    requires KeepsCalling(calls, id, l, share)
    ensures Earned(Run(State(map[], created), calls, l), id, Count(State(map[], created), calls, id, l),
                   FirstCall(calls, id), LastCall(calls, id), l, share)
  {
    if calls != [] {
      var n := |calls| - 1;
      var before, c := calls[..n], calls[n];
      KeepsBefore(calls, id, l, share);
      RunEarns(before, id, l, created, share);
      RunSound(State(map[], created), before, l, created, c.time);
      LastCallBefore(before, id, created, c.time);
      assert GapAt(calls, n, id, l, share);
      CallEarns(Run(State(map[], created), before, l), c, id, Count(State(map[], created), before, id, l),
                FirstCall(before, id), LastCall(before, id), l, share);
    }
  }

  lemma KeepsBefore(calls: seq<Call>, id: string, l: Limits, share: real)
    requires KeepsCalling(calls, id, l, share) && calls != []
    ensures KeepsCalling(calls[..|calls| - 1], id, l, share)
  {
    var before := calls[..|calls| - 1];
    forall i | 0 <= i < |before| ensures GapAt(before, i, id, l, share) {
      assert before[..i] == calls[..i] && GapAt(calls, i, id, l, share);
    }
  }

  lemma EarnedEnough(s: State, id: string, count: nat, first: real, last: real, l: Limits, share: real)
    requires Earned(s, id, count, Some(first), Some(last), l, share) && share >= 1.0 && l.capacity >= 1.0
    ensures Worth(count, share) >= Refill(last - first, l.rate) + Min(1.0, l.capacity - 1.0)
  {
  }

  /** An identity that keeps calling is allowed its share: whatever the others do, each `share` tokens
      refilled between its first and its last call let at least one call through. With a share of one
      and a capacity of two or more, that is one call for every token. */
  lemma KeepsGetting(calls: seq<Call>, id: string, l: Limits, created: real, share: real)
    requires InOrder(calls, created) && l.capacity >= 1.0 && l.rate >= 0.0 && share >= 1.0
    requires KeepsCalling(calls, id, l, share) && LastCall(calls, id).Some?
    ensures FirstCall(calls, id).Some?
    ensures Worth(Count(State(map[], created), calls, id, l), share)
      >= Refill(LastCall(calls, id).value - FirstCall(calls, id).value, l.rate) + Min(1.0, l.capacity - 1.0)
  {
    RunEarns(calls, id, l, created, share);
    EarnedEnough(Run(State(map[], created), calls, l), id, Count(State(map[], created), calls, id, l),
                 FirstCall(calls, id).value, LastCall(calls, id).value, l, share);
  }

  // ---- The objects -----------------------------------------------------------------------

  class Bucket {
    var tokens: real
    var last: real

    function Value(): Tokens
      reads this
    {
      Tokens(tokens, last)
    }

    constructor (capacity: real, now: real)
      ensures Value() == Tokens(capacity, now)
    {
      tokens, last := capacity, now;
    }

    method Consume(l: Limits, now: real) returns (ok: bool)
      modifies this
      ensures ok == Enough(old(Value()), now, l) && Value() == Consumed(old(Value()), now, l)
    {
      var elapsed := now - last;
      tokens := tokens + Refill(elapsed, l.rate);
      if l.capacity < tokens {
        tokens := l.capacity;
      }
      last := now;
      if tokens >= 1.0 {
        tokens := tokens - 1.0;
        return true;
      }
      return false;
    }
  }

  class Limiter {
    const limits: Limits
    var buckets: map<string, Bucket>
    var lastGc: real

    ghost predicate Valid()
      reads this
    {
      forall j, k :: j in buckets && k in buckets && j != k ==> buckets[j] != buckets[k]
    }

    ghost function Now(): State
      reads this, buckets.Values
    {
      State(map k | k in buckets :: buckets[k].Value(), lastGc)
    }

    constructor (limits: Limits, now: real)
      ensures Valid() && Now() == State(map[], now) && this.limits == limits
    {
      this.limits := limits;
      buckets, lastGc := map[], now;
      new;
      assert Now().buckets == map[];
    }

    /** _maybe_gc */
    method Sweep(now: real)
      requires Valid()
      modifies this`buckets, this`lastGc
      ensures Valid()
      ensures lastGc == if now - old(lastGc) >= 60.0 then now else old(lastGc)
      ensures buckets ==
        if now - old(lastGc) >= 60.0
        then (map k | k in old(buckets) && old(buckets)[k].tokens < limits.capacity :: old(buckets)[k])
        else old(buckets)
    {
      if now - lastGc < 60.0 {
        return;
      }
      lastGc := now;
      buckets := map k | k in buckets && buckets[k].tokens < limits.capacity :: buckets[k];
    }

    method IsAllowed(id: string, now: real) returns (ok: bool)
      requires Valid()
      modifies this, buckets.Values
      ensures Valid()
      ensures ok == Allowed(old(Now()), Call(id, now), limits)
      ensures Now() == Step(old(Now()), Call(id, now), limits)
    {
      ghost var s, c := Now(), Call(id, now);
      ghost var b := BucketOf(s, c, limits);
      if id !in buckets {
        var made := new Bucket(limits.capacity, now);
        buckets := buckets[id := made];
      }
      var bucket := buckets[id];
      assert Now().buckets == s.buckets[id := b] && bucket.Value() == b;
      Sweep(now);
      ghost var kept := Now().buckets;
      assert kept == if now - s.lastGc >= 60.0 then Collected(s.buckets[id := b], limits) else s.buckets[id := b];
      ok := Charge(bucket, id, now);
    }

    /** The charge reaches the table only if the bucket is still in it. */
    method Charge(bucket: Bucket, id: string, now: real) returns (ok: bool)
      requires Valid() && (if id in buckets then buckets[id] == bucket else bucket !in buckets.Values)
      modifies bucket
      ensures Valid() && ok == Enough(old(bucket.Value()), now, limits)
      ensures Now() ==
        if id in buckets
        then old(Now()).(buckets := old(Now()).buckets[id := Consumed(old(bucket.Value()), now, limits)])
        else old(Now())
    {
      ok := bucket.Consume(limits, now);
      assert Now().buckets.Keys == old(Now()).buckets.Keys;
    }
  }
}
