/** Drafting, tweaking and submitting plans, as the code does it: steps are shared objects whose
    dependency lists are replaced in place. */
module PlanObjects {
  import opened Decimal
  import opened Options
  import opened AskPlan

  const MAX_STEPS := 8

  // ---- Step numbers ----------------------------------------------------------------------

  function StepId(n: nat): string {
    "step-" + NatText(n)
  }

  /** re.fullmatch("step-(\d+)", id) */
  function StepNumber(id: string): Option<nat> {
    if |id| > 5 && id[..5] == "step-" && IsDigits(id[5..]) then Some(ReadNat(id[5..])) else None
  }

  function HighestNumber(plan: Plan): nat {
    if plan == [] then 0
    else
      var rest, n := HighestNumber(plan[..|plan| - 1]), StepNumber(plan[|plan| - 1].id);
      if n.Some? && n.value > rest then n.value else rest
  }

  lemma StepIdNumber(n: nat)
    ensures StepNumber(StepId(n)) == Some(n)
  {
    ReadNatText(n);
    assert StepId(n)[5..] == NatText(n) && StepId(n)[..5] == "step-";
  }

  lemma {:induction false} HighestIsHighest(plan: Plan, i: nat)
    requires i < |plan| && StepNumber(plan[i].id).Some?
    ensures StepNumber(plan[i].id).value <= HighestNumber(plan)
  {
    if i < |plan| - 1 {
      HighestIsHighest(plan[..|plan| - 1], i);
    }
  }

  // ---- Drafting and asking at the end ----------------------------------------------------

  /** The plan drafted for clauses of which some are gates: a chain in their order. */
  function Chain(gates: seq<bool>): Plan {
    if gates == [] then []
    else
      var n := |gates|;
      Chain(gates[..n - 1]) + [Step(StepId(n), if n > 1 then [StepId(n - 1)] else [], gates[n - 1])]
  }

  function AskAtEnd(plan: Plan): Tweaked {
    if plan == [] then NoSteps
    else if plan[|plan| - 1].gate then Ok(plan)
    else Ok(plan + [Step(StepId(HighestNumber(plan) + 1), [plan[|plan| - 1].id], true)])
  }

  lemma {:induction false} ChainSteps(gates: seq<bool>, i: nat)
    requires i < |gates|
    ensures |Chain(gates)| == |gates|
    ensures Chain(gates)[i] == Step(StepId(i + 1), if i > 0 then [StepId(i)] else [], gates[i])
  {
    var front := gates[..|gates| - 1];
    if i < |front| {
      ChainSteps(front, i);
    } else if i > 0 {
      ChainSteps(front, i - 1);
    }
  }

  lemma StepIdsDiffer(m: nat, n: nat)
    requires m != n
    ensures StepId(m) != StepId(n)
  {
    StepIdNumber(m);
    StepIdNumber(n);
  }

  /** A drafted plan has one step for each clause, with unique ids, and each step depends on the one
      before it. */
  lemma ChainWellFormed(gates: seq<bool>)
    ensures var plan := Chain(gates);
      WellFormed(plan) && |plan| == |gates|
      && forall i :: 0 <= i < |plan| ==>
           plan[i].gate == gates[i] && plan[i].deps == if i == 0 then [] else [plan[i - 1].id]
  {
    var plan := Chain(gates);
    if gates != [] { ChainSteps(gates, 0); }
    forall i | 0 <= i < |plan|
      ensures plan[i].gate == gates[i] && plan[i].deps == if i == 0 then [] else [plan[i - 1].id]
    {
      ChainSteps(gates, i);
      if i > 0 { ChainSteps(gates, i - 1); }
    }
    forall i, j | 0 <= i < j < |plan| ensures plan[i].id != plan[j].id {
      ChainSteps(gates, i);
      ChainSteps(gates, j);
      StepIdsDiffer(i + 1, j + 1);
    }
    forall i, d | 0 <= i < |plan| && d in plan[i].deps ensures Index(plan, d) < i {
      ChainSteps(gates, i);
      ChainSteps(gates, i - 1);
      assert plan[i - 1].id == d;
    }
  }

  /** Asking at the end adds a step with a new id that waits for the last one, and a second request
      changes nothing. */
  lemma AskAtEndKeeps(plan: Plan)
    requires WellFormed(plan) && plan != []
    ensures var asked, n := AskAtEnd(plan), |plan|;
      asked.Ok?
      && (if plan[n - 1].gate then asked.plan == plan
          else |asked.plan| == n + 1 && asked.plan[n].gate && asked.plan[n].deps == [plan[n - 1].id])
    ensures var asked := AskAtEnd(plan);
      WellFormed(asked.plan) && asked.plan[|asked.plan| - 1].gate
      && plan <= asked.plan && AskAtEnd(asked.plan) == asked
  {
    var asked, n := AskAtEnd(plan).plan, |plan|;
    if !plan[n - 1].gate {
      forall i | 0 <= i < n ensures plan[i].id != asked[n].id {
        StepIdNumber(HighestNumber(plan) + 1);
        if StepNumber(plan[i].id).Some? {
          HighestIsHighest(plan, i);
        }
      }
      forall i, d | 0 <= i < |asked| && d in asked[i].deps ensures Index(asked, d) < i {
        if i < n {
          assert d in plan[i].deps;
          assert asked[Index(plan, d)].id == d;
        } else {
          assert asked[n - 1].id == d;
        }
      }
    }
  }

  // ---- Submitting ------------------------------------------------------------------------

  datatype Job = Job(step: string, dependsOn: seq<string>, requiresApproval: bool)

  /** Job ids by step id; or the send that did not go through; or the KeyError of a dependency
      that has no job yet. */
  datatype Submission = Sent(ids: map<string, string>) | SendFailed | UnknownDependency

  /** The job made for step i depends on exactly the jobs made for the steps it depends on. */
  ghost predicate JobFor(job: Job, plan: Plan, i: nat, answers: nat -> Option<string>, firstStepWaits: bool)
    requires i < |plan|
  {
    job.step == plan[i].id
    && job.requiresApproval == (plan[i].gate || (i == 0 && firstStepWaits))
    && |job.dependsOn| == |plan[i].deps|
    && forall k :: 0 <= k < |plan[i].deps| ==>
         Index(plan, plan[i].deps[k]) < i && answers(Index(plan, plan[i].deps[k])) == Some(job.dependsOn[k])
  }

  /** The jobs of the first n steps are on record. */
  ghost predicate Recorded(ids: map<string, string>, plan: Plan, n: nat, answers: nat -> Option<string>)
    requires n <= |plan|
  {
    forall i :: 0 <= i < n ==> plan[i].id in ids && answers(i) == Some(ids[plan[i].id])
  }

  /** submit_plan. For a plan whose dependencies point back no lookup ever misses, and the jobs
      depend on each other exactly as the steps do. */
  method SubmitPlan(plan: Plan, answers: nat -> Option<string>, firstStepWaits: bool)
    returns (result: Submission, jobs: seq<Job>)
    ensures WellFormed(plan) ==> !result.UnknownDependency?
    ensures result.Sent? ==> |jobs| == |plan|
    ensures result.UnknownDependency? ==> |jobs| < |plan|
    ensures result.SendFailed? ==> 0 < |jobs| <= |plan| && answers(|jobs| - 1) == None
    ensures WellFormed(plan) && result.Sent? ==> Recorded(result.ids, plan, |plan|, answers)
    ensures WellFormed(plan) ==> forall i :: 0 <= i < |jobs| ==>
      i < |plan| && JobFor(jobs[i], plan, i, answers, firstStepWaits)
  {
    var ids: map<string, string>, index := map[], 0;
    jobs := [];
    while index < |plan|
      invariant 0 <= index <= |plan| && |jobs| == index
      invariant WellFormed(plan) ==> Recorded(ids, plan, index, answers)
      invariant WellFormed(plan) ==> forall i :: 0 <= i < index ==> JobFor(jobs[i], plan, i, answers, firstStepWaits)
    {
      var job := StepJob(plan, index, ids, answers, firstStepWaits);
      if job.None? {
        return UnknownDependency, jobs;
      }
      jobs := jobs + [job.value];
      var answer := answers(index);
      if answer.None? {
        return SendFailed, jobs;
      }
      ids := ids[plan[index].id := answer.value];
      index := index + 1;
    }
    result := Sent(ids);
  }

  /** step_job; None is the KeyError of a dependency without a job. */
  method StepJob(plan: Plan, index: nat, ids: map<string, string>, ghost answers: nat -> Option<string>,
                 firstStepWaits: bool) returns (job: Option<Job>)
    requires index < |plan|
    ensures WellFormed(plan) && Recorded(ids, plan, index, answers) ==>
      job.Some? && JobFor(job.value, plan, index, answers, firstStepWaits)
    ensures job.None? <==> exists k :: 0 <= k < |plan[index].deps| && plan[index].deps[k] !in ids
  {
    var step := plan[index];
    var dependsOn := LookUp(step.deps, ids);
    if WellFormed(plan) && Recorded(ids, plan, index, answers) {
      forall k | 0 <= k < |step.deps| ensures Index(plan, step.deps[k]) < index && step.deps[k] in ids {
        assert step.deps[k] in plan[index].deps;
        assert plan[Index(plan, step.deps[k])].id in ids;
      }
    }
    job := if dependsOn.None? then None
           else Some(Job(step.id, dependsOn.value, step.gate || (index == 0 && firstStepWaits)));
  }

  /** [ids[d] for d in deps] */
  method LookUp(deps: seq<string>, ids: map<string, string>) returns (found: Option<seq<string>>)
    ensures found.None? <==> exists k :: 0 <= k < |deps| && deps[k] !in ids
    ensures found.Some? ==>
      |found.value| == |deps| && forall k :: 0 <= k < |deps| ==> deps[k] in ids && found.value[k] == ids[deps[k]]
  {
    var jobs: seq<string> := [];
    for k := 0 to |deps|
      invariant |jobs| == k && forall j :: 0 <= j < k ==> deps[j] in ids && jobs[j] == ids[deps[j]]
    {
      if deps[k] !in ids {
        return None;
      }
      jobs := jobs + [ids[deps[k]]];
    }
    found := Some(jobs);
  }

  // ---- Steps as objects ------------------------------------------------------------------

  class StepObject {
    const id: string
    const gate: bool
    var dependsOn: seq<string>

    constructor (id: string, dependsOn: seq<string>, gate: bool)
      ensures this.id == id && this.gate == gate && this.dependsOn == dependsOn
    {
      this.id, this.gate, this.dependsOn := id, gate, dependsOn;
    }

    function Value(): Step
      reads this
    {
      Step(id, dependsOn, gate)
    }
  }

  function Values(steps: seq<StepObject>): Plan
    reads steps
  {
    seq(|steps|, i requires 0 <= i < |steps| reads steps => steps[i].Value())
  }

  ghost predicate Separate(steps: seq<StepObject>) {
    forall i, j :: 0 <= i < j < |steps| ==> steps[i] != steps[j]
  }

  /** A new step waits for the one before it. */
  method AddClause(steps: seq<StepObject>, gate: bool) returns (more: seq<StepObject>)
    requires Separate(steps)
    ensures |more| == |steps| + 1 && more[..|steps|] == steps && fresh(more[|steps|]) && Separate(more)
    ensures Values(more) == Values(steps) +
      [Step(StepId(|steps| + 1), if steps == [] then [] else [steps[|steps| - 1].id], gate)]
  {
    var step := new StepObject(StepId(|steps| + 1), [], gate);
    more := steps + [step];
    if |more| > 1 {
      more[|more| - 1].dependsOn := [more[|more| - 2].id];
    }
  }

  /** draft_plan, from the clauses of the request on: the first eight, gates where someone is to be
      asked. */
  method DraftPlan(gates: seq<bool>) returns (steps: seq<StepObject>)
    ensures Separate(steps) && fresh(steps)
    ensures Values(steps) == Chain(if |gates| <= 8 then gates else gates[..8])
  {
    var clauses := if |gates| <= MAX_STEPS then gates else gates[..MAX_STEPS];
    steps := [];
    var i := 0;
    while i < |clauses|
      invariant 0 <= i <= |clauses| && Separate(steps) && fresh(steps) && |steps| == i
      invariant Values(steps) == Chain(clauses[..i])
    {
      assert clauses[..i + 1][..i] == clauses[..i];
      if i > 0 { ChainSteps(clauses[..i], i - 1); }
      steps := AddClause(steps, clauses[i]);
      i := i + 1;
    }
    assert clauses[..i] == clauses;
  }

  function Others(plan: Plan, id: string): Plan {
    if plan == [] then []
    else
      var front := Others(plan[..|plan| - 1], id);
      if plan[|plan| - 1].id == id then front else front + [plan[|plan| - 1]]
  }

  lemma {:induction false} KeptIsOthersRewired(plan: Plan, v: Step)
    ensures |Kept(plan, v)| == |Others(plan, v.id)|
    ensures forall i :: 0 <= i < |Kept(plan, v)| ==> Kept(plan, v)[i] == Rewired(Others(plan, v.id)[i], v)
  {
    if plan != [] {
      KeptIsOthersRewired(plan[..|plan| - 1], v);
    }
  }

  /** [s for s in steps if s["id"] != id] */
  method KeepOthers(steps: seq<StepObject>, id: string) returns (kept: seq<StepObject>)
    requires Separate(steps)
    ensures Separate(kept) && Values(kept) == Others(Values(steps), id)
    ensures forall s :: s in kept <==> s in steps && s.id != id
  {
    ghost var plan := Values(steps);
    kept := [];
    for i := 0 to |steps|
      invariant Separate(kept) && Values(kept) == Others(plan[..i], id)
      invariant forall s :: s in kept <==> s in steps[..i] && s.id != id
    {
      assert plan[..i + 1][..i] == plan[..i] && steps[..i + 1] == steps[..i] + [steps[i]];
      if steps[i].id != id {
        assert Values(kept + [steps[i]]) == Values(kept) + [plan[i]];
        kept := kept + [steps[i]];
      }
    }
    assert plan[..|steps|] == plan && steps[..|steps|] == steps;
  }

  method RewireStep(step: StepObject, victim: StepObject)
    requires step != victim
    modifies step
    ensures step.Value() == Rewired(old(step.Value()), victim.Value())
  {
    var deps := Rewire(step.dependsOn, victim.id, victim.dependsOn);
    step.dependsOn := deps;
  }

  /** The rewiring loop of remove_step, over the kept steps. */
  method RewireInPlace(kept: seq<StepObject>, victim: StepObject)
    requires Separate(kept) && victim !in kept
    modifies kept
    ensures forall i :: 0 <= i < |kept| ==> kept[i].Value() == Rewired(old(kept[i].Value()), old(victim.Value()))
  {
    var i := 0;
    while i < |kept|
      invariant 0 <= i <= |kept| && victim.Value() == old(victim.Value())
      invariant forall k :: 0 <= k < i ==> kept[k].Value() == Rewired(old(kept[k].Value()), old(victim.Value()))
      invariant forall k :: i <= k < |kept| ==> kept[k].Value() == old(kept[k].Value())
    {
      RewireStep(kept[i], victim);
      i := i + 1;
    }
  }

  /** remove_step: the kept steps' dependencies are replaced in place, so the plan it was given
      changes too; the removed step itself is left as it was. */
  method RemoveInPlace(steps: seq<StepObject>, id: string) returns (result: Tweaked, kept: seq<StepObject>)
    requires Separate(steps)
    modifies steps
    ensures result == RemoveStep(old(Values(steps)), id)
    ensures result.Ok? ==>
      Values(kept) == result.plan && Separate(kept) && forall s :: s in kept <==> s in steps && s.id != id
    ensures forall s :: s in steps && (!result.Ok? || s.id == id) ==> s.dependsOn == old(s.dependsOn)
  {
    ghost var before := Values(steps);
    kept := [];
    var victim := FindStep(steps, id);
    if victim == |steps| {
      return NotInPlan, kept;
    }
    if |steps| == 1 {
      return LastStep, kept;
    }
    kept := KeepOthers(steps, id);
    assert forall i :: 0 <= i < |kept| ==> kept[i] in kept && kept[i] in steps;
    RewireInPlace(kept, steps[victim]);
    KeptIsOthersRewired(before, before[victim]);
    assert Values(kept) == Kept(before, before[victim]);
    result := Ok(Values(kept));
  }

  method FindStep(steps: seq<StepObject>, id: string) returns (i: nat)
    ensures i == Index(Values(steps), id)
  {
    ghost var plan := Values(steps);
    i := 0;
    while i < |steps| && steps[i].id != id
      invariant 0 <= i <= |steps| && forall k :: 0 <= k < i ==> plan[k].id != id
    {
      i := i + 1;
    }
    assert i < |steps| ==> plan[i].id == id;
  }

  /** The inner loop of remove_step, and the removal of repeats. */
  method Rewire(dependsOn: seq<string>, id: string, inherited: seq<string>) returns (deps: seq<string>)
    ensures deps == Dedupe(Spread(dependsOn, id, inherited))
  {
    var all: seq<string>, i := [], 0;
    while i < |dependsOn|
      invariant 0 <= i <= |dependsOn| && all == Spread(dependsOn[..i], id, inherited)
    {
      assert dependsOn[..i + 1][..i] == dependsOn[..i];
      if dependsOn[i] == id {
        all := all + inherited;
      } else {
        all := all + [dependsOn[i]];
      }
      i := i + 1;
    }
    assert dependsOn[..i] == dependsOn;
    deps := Dedupe(all);
  }
}
