/** Plans: short chains of steps, the tweaks a person may make, and the jobs they become. Wording,
    icons and roles are left out; a step is its id, what it depends on, and whether it is a gate. */
module AskPlan {
  import opened PlanGraph

  datatype Step = Step(id: string, deps: seq<string>, gate: bool)

  type Plan = seq<Step>

  /** The errors of the tweaks: an unknown step, the last step, a plan without steps. */
  datatype Tweaked = Ok(plan: Plan) | NotInPlan | LastStep | NoSteps

  function Index(plan: Plan, id: string): (i: nat)
    ensures i <= |plan| && (i < |plan| ==> plan[i].id == id)
    ensures forall k :: 0 <= k < i ==> plan[k].id != id
  {
    if plan == [] || plan[0].id == id then 0 else 1 + Index(plan[1..], id)
  }

  predicate HasStep(plan: Plan, id: string) {
    Index(plan, id) < |plan|
  }

  predicate UniqueIds(plan: Plan) {
    forall i, j :: 0 <= i < j < |plan| ==> plan[i].id != plan[j].id
  }

  /** Ids are unique and every dependency is an earlier step. */
  ghost predicate WellFormed(plan: Plan) {
    UniqueIds(plan)
    && forall i, d :: 0 <= i < |plan| && d in plan[i].deps ==> Index(plan, d) < i
  }

  // ---- Removing a step -------------------------------------------------------------------

  /** list(dict.fromkeys(deps)) */
  function Dedupe(deps: seq<string>): seq<string> {
    if deps == [] then []
    else
      var front := Dedupe(deps[..|deps| - 1]);
      if deps[|deps| - 1] in front then front else front + [deps[|deps| - 1]]
  }

  function Spread(deps: seq<string>, v: string, inherited: seq<string>): seq<string> {
    if deps == [] then []
    else
      Spread(deps[..|deps| - 1], v, inherited)
      + if deps[|deps| - 1] == v then inherited else [deps[|deps| - 1]]
  }

  function Rewired(s: Step, v: Step): Step {
    s.(deps := Dedupe(Spread(s.deps, v.id, v.deps)))
  }

  function Kept(plan: Plan, v: Step): Plan {
    if plan == [] then []
    else
      var front, last := Kept(plan[..|plan| - 1], v), plan[|plan| - 1];
      if last.id == v.id then front else front + [Rewired(last, v)]
  }

  function RemoveStep(plan: Plan, id: string): Tweaked {
    if !HasStep(plan, id) then NotInPlan
    else if |plan| == 1 then LastStep
    else Ok(Kept(plan, plan[Index(plan, id)]))
  }

  function RemoveSteps(plan: Plan, ids: seq<string>): Tweaked
    decreases ids
  {
    if ids == [] then Ok(plan)
    else
      match RemoveStep(plan, ids[0])
      case Ok(rest) => RemoveSteps(rest, ids[1..])
      case error => error
  }

  // ---- The graph of a plan ---------------------------------------------------------------

  function Ids(plan: Plan): set<string> {
    set s | s in plan :: s.id
  }

  ghost function GraphOf(plan: Plan): Graph {
    map id | id in Ids(plan) && HasStep(plan, id) :: Elements(plan[Index(plan, id)].deps)
  }

  ghost function RankOf(plan: Plan): map<string, nat> {
    map id | id in Ids(plan) :: Index(plan, id)
  }

  lemma IdHasStep(plan: Plan, id: string)
    ensures id in Ids(plan) <==> HasStep(plan, id)
  {
    if HasStep(plan, id) {
      assert plan[Index(plan, id)] in plan;
    }
  }

  lemma PlanRanked(plan: Plan)
    requires WellFormed(plan)
    ensures Ranked(GraphOf(plan), RankOf(plan))
  {
    forall x, d | x in GraphOf(plan) && d in GraphOf(plan)[x]
      ensures d in GraphOf(plan) && RankOf(plan)[d] < RankOf(plan)[x]
    {
      assert d in plan[Index(plan, x)].deps;
      IdHasStep(plan, d);
    }
    forall x | x in GraphOf(plan) ensures x in RankOf(plan) {}
  }

  lemma {:induction false} DedupeElements(deps: seq<string>)
    ensures forall d :: d in Dedupe(deps) <==> d in deps
  {
    if deps != [] {
      DedupeElements(deps[..|deps| - 1]);
      assert deps == deps[..|deps| - 1] + [deps[|deps| - 1]];
    }
  }

  lemma {:induction false} SpreadElements(deps: seq<string>, v: string, inherited: seq<string>)
    ensures forall d :: d in Spread(deps, v, inherited) <==> (d in deps && d != v) || (v in deps && d in inherited)
  {
    if deps != [] {
      SpreadElements(deps[..|deps| - 1], v, inherited);
      assert deps == deps[..|deps| - 1] + [deps[|deps| - 1]];
    }
  }

  lemma RewiredElements(s: Step, v: Step)
    ensures forall d :: d in Rewired(s, v).deps <==> (d in s.deps && d != v.id) || (v.id in s.deps && d in v.deps)
  {
    DedupeElements(Spread(s.deps, v.id, v.deps));
    SpreadElements(s.deps, v.id, v.deps);
  }

  /** The kept steps in their old order, each rewired. */
  lemma {:induction false} KeptIs(plan: Plan, v: Step, k: nat)
    requires k < |plan| && plan[k] == v && forall i :: 0 <= i < |plan| && i != k ==> plan[i].id != v.id
    ensures |Kept(plan, v)| == |plan| - 1
    ensures forall i :: 0 <= i < |plan| - 1 ==> Kept(plan, v)[i] == Rewired(plan[if i < k then i else i + 1], v)
  {
    var front := plan[..|plan| - 1];
    if k == |front| {
      KeptAll(front, v);
    } else {
      KeptIs(front, v, k);
    }
  }

  lemma {:induction false} KeptAll(plan: Plan, v: Step)
    requires forall i :: 0 <= i < |plan| ==> plan[i].id != v.id
    ensures |Kept(plan, v)| == |plan| && forall i :: 0 <= i < |plan| ==> Kept(plan, v)[i] == Rewired(plan[i], v)
  {
    if plan != [] {
      var front, last := plan[..|plan| - 1], plan[|plan| - 1];
      KeptAll(front, v);
      assert Kept(plan, v) == Kept(front, v) + [Rewired(last, v)];
    }
  }

  lemma RemovalShape(plan: Plan, id: string)
    requires WellFormed(plan) && RemoveStep(plan, id).Ok?
    ensures var k, after := Index(plan, id), RemoveStep(plan, id).plan;
      |after| == |plan| - 1
      && (forall i :: 0 <= i < |after| ==> after[i] == Rewired(plan[if i < k then i else i + 1], plan[k]))
      && (forall x :: x != id && HasStep(plan, x) ==>
            Index(after, x) == if Index(plan, x) < k then Index(plan, x) else Index(plan, x) - 1)
      && forall x :: HasStep(after, x) ==> x != id && HasStep(plan, x)
  {
    var k, after := Index(plan, id), RemoveStep(plan, id).plan;
    KeptIs(plan, plan[k], k);
    SameIds(plan, k, after);
    forall x | x != id && HasStep(plan, x)
      ensures Index(after, x) == if Index(plan, x) < k then Index(plan, x) else Index(plan, x) - 1
    {
      IndexAfter(plan, k, after, x);
    }
    forall x | HasStep(after, x) ensures x != id && HasStep(plan, x) {
      IndexBefore(plan, k, after, x);
    }
  }

  /** `after` has the ids of `plan` without the k-th. */
  predicate LacksOne(plan: Plan, k: nat, after: Plan) {
    k < |plan| && |after| == |plan| - 1
    && forall i :: 0 <= i < |after| ==> after[i].id == plan[if i < k then i else i + 1].id
  }

  lemma SameIds(plan: Plan, k: nat, after: Plan)
    requires k < |plan| && |after| == |plan| - 1
    requires forall i :: 0 <= i < |after| ==> after[i] == Rewired(plan[if i < k then i else i + 1], plan[k])
    ensures LacksOne(plan, k, after)
  {
  }

  lemma IndexAfter(plan: Plan, k: nat, after: Plan, x: string)
    requires UniqueIds(plan) && LacksOne(plan, k, after) && x != plan[k].id && HasStep(plan, x)
    ensures Index(after, x) == if Index(plan, x) < k then Index(plan, x) else Index(plan, x) - 1
  {
    var i := Index(plan, x);
    assert after[if i < k then i else i - 1].id == x;
  }

  lemma IndexBefore(plan: Plan, k: nat, after: Plan, x: string)
    requires UniqueIds(plan) && LacksOne(plan, k, after) && HasStep(after, x)
    ensures x != plan[k].id && HasStep(plan, x)
  {
    var i := Index(after, x);
    assert plan[if i < k then i else i + 1].id == x;
  }

  /** A removal is refused exactly for an id that is no step's, and for the only step. */
  lemma RemovalFailsAs(plan: Plan, id: string)
    ensures RemoveStep(plan, id) == NotInPlan <==> forall s :: s in plan ==> s.id != id
    ensures RemoveStep(plan, id) == LastStep <==> |plan| == 1 && plan[0].id == id
    ensures RemoveStep(plan, id) != NoSteps
  {
    var i := Index(plan, id);
    assert i < |plan| ==> plan[i] in plan;
    forall s | s in plan && i == |plan| ensures s.id != id {
      var k :| 0 <= k < |plan| && plan[k] == s;
    }
  }

  /** Removing a step keeps ids unique and dependencies pointing back. */
  lemma RemovalWellFormed(plan: Plan, id: string)
    requires WellFormed(plan) && RemoveStep(plan, id).Ok?
    ensures WellFormed(RemoveStep(plan, id).plan)
  {
    RemovalShape(plan, id);
    var k, after := Index(plan, id), RemoveStep(plan, id).plan;
    forall i, d | 0 <= i < |after| && d in after[i].deps ensures Index(after, d) < i {
      var was := if i < k then i else i + 1;
      RewiredElements(plan[was], plan[k]);
      if d !in plan[was].deps || d == id {
        assert d in plan[k].deps;
        assert Index(plan, id) < was;
        assert Index(plan, d) < k;
      }
    }
  }

  lemma RemovalDeps(plan: Plan, id: string, x: string)
    requires WellFormed(plan) && RemoveStep(plan, id).Ok? && x != id && HasStep(plan, x)
    ensures var after := RemoveStep(plan, id).plan;
      HasStep(after, x) && after[Index(after, x)] == Rewired(plan[Index(plan, x)], plan[Index(plan, id)])
  {
    RemovalShape(plan, id);
    var i, k := Index(plan, x), Index(plan, id);
    assert i != k;
  }

  /** On the graph, removing a step is taking a node out. */
  lemma RemovalGraph(plan: Plan, id: string)
    requires WellFormed(plan) && RemoveStep(plan, id).Ok?
    ensures GraphOf(RemoveStep(plan, id).plan) == PlanGraph.Without(GraphOf(plan), id)
  {
    var after := RemoveStep(plan, id).plan;
    var g, h := GraphOf(plan), GraphOf(after);
    IdsAfter(plan, id);
    GraphKeys(plan);
    GraphKeys(after);
    IdHasStep(plan, id);
    forall x | x in h ensures h[x] == PlanGraph.Without(g, id)[x] {
      IdHasStep(plan, x);
      RemovalDepSet(plan, id, x);
    }
  }

  lemma RemovalDepSet(plan: Plan, id: string, x: string)
    requires WellFormed(plan) && RemoveStep(plan, id).Ok? && x != id && HasStep(plan, x)
    ensures var after := RemoveStep(plan, id).plan; var deps := Elements(plan[Index(plan, x)].deps);
      HasStep(after, x)
      && Elements(after[Index(after, x)].deps)
           == (deps - {id}) + if id in deps then Elements(plan[Index(plan, id)].deps) else {}
  {
    RemovalDeps(plan, id, x);
    RewiredElements(plan[Index(plan, x)], plan[Index(plan, id)]);
  }

  lemma GraphKeys(plan: Plan)
    ensures GraphOf(plan).Keys == Ids(plan)
  {
    forall x ensures x in GraphOf(plan) <==> x in Ids(plan) {
      IdHasStep(plan, x);
    }
  }

  /** What one removal means: among the kept steps, exactly the waiting there was. */
  lemma RemoveStepKeepsWaiting(plan: Plan, id: string, x: string, a: string)
    requires WellFormed(plan) && RemoveStep(plan, id).Ok? && x != id && a != id
    ensures Waits(GraphOf(RemoveStep(plan, id).plan), x, a) <==> Waits(GraphOf(plan), x, a)
  {
    RemovalGraph(plan, id);
    PlanRanked(plan);
    IdHasStep(plan, id);
    RemovalKeepsWaiting(GraphOf(plan), id, x, a);
  }

  ghost predicate Distinct(ids: seq<string>) {
    forall i, j :: 0 <= i < j < |ids| ==> ids[i] != ids[j]
  }

  /** Several removals succeed exactly when they name different steps of the plan, and not all. */
  lemma {:induction false} RemovalsSucceed(plan: Plan, ids: seq<string>)
    requires WellFormed(plan)
    ensures RemoveSteps(plan, ids).Ok? <==>
      Distinct(ids) && Elements(ids) <= Ids(plan) && (ids != [] ==> |ids| < |plan|)
    decreases ids
  {
    if ids != [] {
      IdHasStep(plan, ids[0]);
      DistinctHead(ids);
      assert Elements(ids) == {ids[0]} + Elements(ids[1..]);
      if RemoveStep(plan, ids[0]).Ok? {
        RemovalWellFormed(plan, ids[0]);
        RemovalShape(plan, ids[0]);
        IdsAfter(plan, ids[0]);
        RemovalsSucceed(RemoveStep(plan, ids[0]).plan, ids[1..]);
      }
    }
  }

  /** What several removals leave. */
  lemma {:induction false} RemovalsLeave(plan: Plan, ids: seq<string>)
    requires WellFormed(plan) && RemoveSteps(plan, ids).Ok?
    ensures
      var after := RemoveSteps(plan, ids).plan;
      WellFormed(after) && GraphOf(after) == WithoutAll(GraphOf(plan), ids)
    decreases ids
  {
    if ids != [] {
      RemovalWellFormed(plan, ids[0]);
      RemovalGraph(plan, ids[0]);
      RemovalsLeave(RemoveStep(plan, ids[0]).plan, ids[1..]);
    }
  }

  lemma IdsAfter(plan: Plan, id: string)
    requires WellFormed(plan) && RemoveStep(plan, id).Ok?
    ensures Ids(RemoveStep(plan, id).plan) == Ids(plan) - {id}
  {
    RemovalShape(plan, id);
    forall x ensures x in Ids(RemoveStep(plan, id).plan) <==> x in Ids(plan) && x != id {
      IdHasStep(plan, x);
      IdHasStep(RemoveStep(plan, id).plan, x);
    }
  }

  lemma DistinctHead(ids: seq<string>)
    requires ids != []
    ensures Distinct(ids) <==> ids[0] !in Elements(ids[1..]) && Distinct(ids[1..])
  {
    if ids[0] !in Elements(ids[1..]) {
      assert forall j :: 0 < j < |ids| ==> ids[j] == ids[1..][j - 1] && ids[1..][j - 1] in ids[1..];
    }
  }

  /** Removing the same steps in another order succeeds just as well and leaves the same steps with
      the same dependencies. */
  lemma RemovalOrderIrrelevant(plan: Plan, ids: seq<string>, others: seq<string>)
    requires WellFormed(plan) && Distinct(ids) && Distinct(others)
    requires |ids| == |others| && Elements(ids) == Elements(others)
    ensures RemoveSteps(plan, ids).Ok? <==> RemoveSteps(plan, others).Ok?
    ensures RemoveSteps(plan, ids).Ok? ==>
      GraphOf(RemoveSteps(plan, ids).plan) == GraphOf(RemoveSteps(plan, others).plan)
  {
    RemovalsSucceed(plan, ids);
    RemovalsSucceed(plan, others);
    if RemoveSteps(plan, ids).Ok? {
      RemovalsLeave(plan, ids);
      RemovalsLeave(plan, others);
      PlanRanked(plan);
      GraphKeys(plan);
      OrderIrrelevant(GraphOf(plan), ids, others, RankOf(plan));
    }
  }

  /** Where an id comes first in a list; |deps| if nowhere. */
  function FirstAt(deps: seq<string>, d: string): (i: nat)
    ensures i <= |deps| && (i < |deps| ==> deps[i] == d) && forall k :: 0 <= k < i ==> deps[k] != d
  {
    if deps == [] || deps[0] == d then 0 else 1 + FirstAt(deps[1..], d)
  }

  lemma FirstInFront(deps: seq<string>, d: string)
    requires deps != []
    ensures var front := deps[..|deps| - 1];
      if d in front then FirstAt(deps, d) == FirstAt(front, d) < |front|
      else d == deps[|deps| - 1] ==> FirstAt(deps, d) == |front|
  {
    var front := deps[..|deps| - 1];
    if d in front {
      var k :| 0 <= k < |front| && front[k] == d;
      assert FirstAt(front, d) <= k && deps[FirstAt(front, d)] == d;
    }
  }

  /** Dropping repeats keeps each id once, in the order in which the ids first came. */
  lemma {:induction false} DedupeKeepsFirst(deps: seq<string>)
    ensures forall d :: d in Dedupe(deps) <==> d in deps
    ensures forall i, j :: 0 <= i < j < |Dedupe(deps)| ==>
      FirstAt(deps, Dedupe(deps)[i]) < FirstAt(deps, Dedupe(deps)[j])
  {
    if deps != [] {
      var front, last := deps[..|deps| - 1], deps[|deps| - 1];
      DedupeKeepsFirst(front);
      assert deps == front + [last];
      forall i, j | 0 <= i < j < |Dedupe(deps)|
        ensures FirstAt(deps, Dedupe(deps)[i]) < FirstAt(deps, Dedupe(deps)[j])
      {
        FirstInFront(deps, Dedupe(deps)[i]);
        FirstInFront(deps, Dedupe(deps)[j]);
        assert i < |Dedupe(front)| ==> Dedupe(deps)[i] in Dedupe(front);
        assert j < |Dedupe(front)| ==> Dedupe(deps)[j] in Dedupe(front);
      }
    }
  }
}
