/** Waiting as reachability: what removing a step does to a dependency graph. */
module PlanGraph {

  /** For each step, the steps it depends on. */
  type Graph = map<string, set<string>>

  /** Taking a step out: whoever depended on it now depends on what it depended on. */
  function Without(g: Graph, v: string): Graph {
    map x | x in g && x != v ::
      if v in g[x] && v in g then (g[x] - {v}) + g[v] else g[x] - {v}
  }

  function WithoutAll(g: Graph, vs: seq<string>): Graph {
    if vs == [] then g else WithoutAll(Without(g, vs[0]), vs[1..])
  }

  /** x depends on a, directly or through at most n steps in `via`. */
  ghost predicate Reach(g: Graph, via: set<string>, x: string, a: string, n: nat)
    decreases n
  {
    x in g && (a in g[x] || (n > 0 && exists d :: d in g[x] && d in via && Reach(g, via, d, a, n - 1)))
  }

  ghost predicate Reaches(g: Graph, via: set<string>, x: string, a: string) {
    exists n: nat :: Reach(g, via, x, a, n)
  }

  /** x must wait for a. */
  ghost predicate Waits(g: Graph, x: string, a: string) {
    Reaches(g, g.Keys, x, a)
  }

  /** Dependencies are steps of the plan with a smaller rank. */
  ghost predicate Ranked(g: Graph, rank: map<string, nat>) {
    g.Keys <= rank.Keys && forall x, d :: x in g && d in g[x] ==> d in g && rank[d] < rank[x]
  }

  lemma WithoutRanked(g: Graph, v: string, rank: map<string, nat>)
    requires Ranked(g, rank)
    ensures Ranked(Without(g, v), rank)
  {
  }

  lemma {:induction false} ReachLonger(g: Graph, via: set<string>, x: string, a: string, n: nat, m: nat)
    requires Reach(g, via, x, a, n) && n <= m
    ensures Reach(g, via, x, a, m)
    decreases n
  {
    if a !in g[x] {
      var d :| d in g[x] && d in via && Reach(g, via, d, a, n - 1);
      ReachLonger(g, via, d, a, n - 1, m - 1);
    }
  }

  /** A path around the removed step comes from one that may go through it. */
  lemma {:induction false} ReachBack(g: Graph, v: string, via: set<string>, x: string, a: string, n: nat)
    requires v in g && x != v && v !in via && Reach(Without(g, v), via, x, a, n)
    ensures Reach(g, via + {v}, x, a, 2 * n + 1)
    decreases n
  {
    var g' := Without(g, v);
    if a in g'[x] {
      if a !in g[x] {
        assert v in g[x] && Reach(g, via + {v}, v, a, 0);
        ReachLonger(g, via + {v}, v, a, 0, 2 * n);
      }
    } else {
      var d :| d in g'[x] && d in via && Reach(g', via, d, a, n - 1);
      ReachBack(g, v, via, d, a, n - 1);
      ReachLonger(g, via + {v}, d, a, 2 * n - 1, 2 * n);
      if d !in g[x] {
        assert v in g[x] && d in g[v] && d in via + {v};
        assert Reach(g, via + {v}, v, a, 2 * n);
      }
    }
  }

  /** A path that goes through the removed step is left as one around it. */
  lemma {:induction false} ReachForth(g: Graph, v: string, via: set<string>, x: string, a: string, n: nat)
    requires v in g && v !in g[v] && x != v && a != v && v !in via && Reach(g, via + {v}, x, a, n)
    ensures Reach(Without(g, v), via, x, a, n)
    decreases n
  {
    var g' := Without(g, v);
    if a !in g[x] {
      var d :| d in g[x] && d in via + {v} && Reach(g, via + {v}, d, a, n - 1);
      if d != v {
        ReachForth(g, v, via, d, a, n - 1);
        assert d in g'[x];
      } else if a in g[v] {
        assert a in g'[x];
      } else {
        var e :| e in g[v] && e in via + {v} && Reach(g, via + {v}, e, a, n - 2);
        ReachForth(g, v, via, e, a, n - 2);
        assert e in g'[x] && e in via;
        ReachLonger(g', via, e, a, n - 2, n - 1);
      }
    }
  }

  lemma RemovedIsVia(g: Graph, v: string, via: set<string>, x: string, a: string)
    requires v in g && v !in g[v] && x != v && a != v && v !in via
    ensures Reaches(Without(g, v), via, x, a) <==> Reaches(g, via + {v}, x, a)
  {
    if n: nat :| Reach(Without(g, v), via, x, a, n) {
      ReachBack(g, v, via, x, a, n);
    }
    if n: nat :| Reach(g, via + {v}, x, a, n) {
      ReachForth(g, v, via, x, a, n);
    }
  }

  /** For two kept steps, one must wait for the other after the removal exactly when it had to
      before. */
  lemma RemovalKeepsWaiting(g: Graph, v: string, x: string, a: string)
    requires v in g && v !in g[v] && x != v && a != v
    ensures Waits(Without(g, v), x, a) <==> Waits(g, x, a)
  {
    RemovedIsVia(g, v, g.Keys - {v}, x, a);
    assert Without(g, v).Keys == g.Keys - {v} && g.Keys - {v} + {v} == g.Keys;
  }

  function Elements(vs: seq<string>): set<string> {
    set v | v in vs
  }

  lemma DirectOnly(g: Graph, x: string, a: string)
    requires x in g
    ensures Reaches(g, {}, x, a) <==> a in g[x]
  {
    if a in g[x] {
      assert Reach(g, {}, x, a, 0);
    }
  }

  /** After removing several steps, a kept step depends on exactly those kept steps it reached
      through removed ones alone. */
  lemma {:induction false} WithoutAllExactly(g: Graph, vs: seq<string>, rank: map<string, nat>, x: string, a: string)
    requires Ranked(g, rank) && Elements(vs) <= g.Keys && forall i, j :: 0 <= i < j < |vs| ==> vs[i] != vs[j]
    requires x in g && x !in vs && a !in vs
    ensures x in WithoutAll(g, vs) && (a in WithoutAll(g, vs)[x] <==> Reaches(g, Elements(vs), x, a))
  {
    if vs == [] {
      DirectOnly(g, x, a);
      assert Elements(vs) == {};
    } else {
      var v, rest := vs[0], vs[1..];
      assert v in Elements(vs);
      WithoutRanked(g, v, rank);
      assert v !in rest && Elements(rest) <= Elements(vs);
      WithoutAllExactly(Without(g, v), rest, rank, x, a);
      RemovedIsVia(g, v, Elements(rest), x, a);
      assert Elements(rest) + {v} == Elements(vs);
    }
  }

  lemma {:induction false} WithoutAllKeys(g: Graph, vs: seq<string>, rank: map<string, nat>)
    requires Ranked(g, rank)
    ensures WithoutAll(g, vs).Keys == g.Keys - Elements(vs) && Ranked(WithoutAll(g, vs), rank)
  {
    if vs != [] {
      WithoutRanked(g, vs[0], rank);
      WithoutAllKeys(Without(g, vs[0]), vs[1..], rank);
      assert Elements(vs) == {vs[0]} + Elements(vs[1..]);
    }
  }

  /** Removing a set of steps in any order leaves the same dependencies. */
  lemma OrderIrrelevant(g: Graph, vs: seq<string>, us: seq<string>, rank: map<string, nat>)
    requires Ranked(g, rank) && Elements(vs) <= g.Keys && Elements(vs) == Elements(us)
    requires forall i, j :: 0 <= i < j < |vs| ==> vs[i] != vs[j]
    requires forall i, j :: 0 <= i < j < |us| ==> us[i] != us[j]
    ensures WithoutAll(g, vs) == WithoutAll(g, us)
  {
    WithoutAllKeys(g, vs, rank);
    WithoutAllKeys(g, us, rank);
    forall x | x in g && x !in Elements(vs) ensures WithoutAll(g, vs)[x] == WithoutAll(g, us)[x] {
      forall a ensures a in WithoutAll(g, vs)[x] <==> a in WithoutAll(g, us)[x] {
        if a !in Elements(vs) {
          WithoutAllExactly(g, vs, rank, x, a);
          WithoutAllExactly(g, us, rank, x, a);
        }
      }
    }
  }
}
