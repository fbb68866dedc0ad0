/**
  The template dependency graph: which templates may be dispatched, and which never can.
  The graph library underneath is modelled by its nodes and edges.
*/
module Dag {
  import opened Ordering

  /** `(u, t)` is an edge when template `t` depends on upstream `u`. */
  datatype Graph = Graph(names: set<string>, edges: set<(string, string)>)

  ghost predicate WellFormed(g: Graph) { forall e :: e in g.edges ==> e.0 in g.names && e.1 in g.names }

  function Upstreams(g: Graph, t: string): set<string> { set e | e in g.edges && e.1 == t :: e.0 }

  predicate DepsSatisfied(g: Graph, t: string, ready: set<string>) { Upstreams(g, t) <= ready }

  function Eligible(g: Graph, ready: set<string>): set<string> {
    set t | t in g.names && t !in ready && DepsSatisfied(g, t, ready)
  }

  function Elements(s: seq<string>): set<string> { set x | x in s }

  // ----- dispatching -----------------------------------------------------------------------

  /** A dispatch sequence: each template in turn is eligible once those before it are ready. */
  ghost predicate Dispatch(g: Graph, run: seq<string>) {
    forall i :: 0 <= i < |run| ==> run[i] in Eligible(g, Elements(run[..i]))
  }

  /** Nothing more can be dispatched. */
  ghost predicate Exhausted(g: Graph, ready: set<string>) { Eligible(g, ready) == {} }

  /** The templates that no dispatch sequence makes ready. */
  ghost predicate Stuck(g: Graph, t: string) {
    t in g.names && forall run :: Dispatch(g, run) ==> t !in run
  }

  lemma DispatchStep(g: Graph, run: seq<string>, t: string)
    requires Dispatch(g, run) && t in Eligible(g, Elements(run))
    ensures Dispatch(g, run + [t])
  {
    hide Eligible;
    var more := run + [t];
    forall i | 0 <= i < |more| ensures more[i] in Eligible(g, Elements(more[..i])) {
      if i < |run| { assert more[..i] == run[..i]; } else { assert more[..i] == run; }
    }
  }

  /** Whatever some sequence makes ready is in every exhausted ready set. */
  lemma {:induction false} RunWithin(g: Graph, run: seq<string>, ready: set<string>, k: nat)
    requires Dispatch(g, run) && Exhausted(g, ready) && k <= |run|
    ensures Elements(run[..k]) <= ready
  {
    if k > 0 {
      RunWithin(g, run, ready, k - 1);
      var t := run[k - 1];
      EligibleIsNode(g, t, Elements(run[..k - 1]));
      assert run[..k] == run[..k - 1] + [t];
      assert t !in Eligible(g, ready);
      EligibleMeans(g, t, ready);
    }
  }

  /** Every maximal dispatch sequence, whatever its choices, readies exactly the templates that are not stuck. */
  lemma MaximalRunsAgree(g: Graph, run: seq<string>)
    requires Dispatch(g, run) && Exhausted(g, Elements(run))
    ensures forall t :: t in g.names ==> (Stuck(g, t) <==> t !in run)
    ensures forall t :: t in run ==> t in g.names
  {
    hide Eligible;
    forall t | t in g.names ensures Stuck(g, t) <==> t !in run {
      if t !in run {
        forall other | Dispatch(g, other) ensures t !in other {
          RunWithin(g, other, Elements(run), |other|);
          assert other[..|other|] == other;
          assert t in other <==> t in Elements(other);
        }
      }
    }
    forall t | t in run ensures t in g.names {
      var i :| 0 <= i < |run| && run[i] == t;
      EligibleIsNode(g, t, Elements(run[..i]));
    }
  }

  lemma EligibleIsNode(g: Graph, t: string, ready: set<string>)
    requires t in Eligible(g, ready)
    ensures t in g.names && t !in ready && Upstreams(g, t) <= ready
  {
  }

  /** In any dispatch sequence a template comes after all its upstreams. */
  lemma UpstreamsFirst(g: Graph, run: seq<string>, i: nat, u: string)
    requires Dispatch(g, run) && i < |run| && (u, run[i]) in g.edges
    ensures exists j :: 0 <= j < i && run[j] == u
  {
    EligibleIsNode(g, run[i], Elements(run[..i]));
    assert u in Elements(run[..i]);
    assert u in run[..i];
  }

  // ----- cycles ----------------------------------------------------------------------------

  /** A walk against the edges: each template depends on the next. */
  ghost predicate Walk(g: Graph, w: seq<string>) {
    w != [] && forall i :: 0 <= i < |w| - 1 ==> DependsOn(g, w[i], w[i + 1])
  }

  predicate DependsOn(g: Graph, t: string, u: string) { (u, t) in g.edges }

  ghost predicate Cycle(g: Graph, c: seq<string>) { |c| >= 2 && Walk(g, c) && c[0] == c[|c| - 1] }

  ghost predicate Acyclic(g: Graph) { forall c :: !Cycle(g, c) }

  /** A stuck template has a stuck upstream. */
  lemma StuckHasStuckUpstream(g: Graph, run: seq<string>, t: string) returns (u: string)
    requires WellFormed(g) && Dispatch(g, run) && Exhausted(g, Elements(run)) && t in g.names && t !in run
    ensures DependsOn(g, t, u) && u in g.names && u !in run
  {
    assert t !in Eligible(g, Elements(run));
    u :| u in Upstreams(g, t) && u !in Elements(run);
    var e :| e in g.edges && e.1 == t && e.0 == u;
    assert e == (u, t);
  }

  lemma {:induction false} LongWalk(g: Graph, run: seq<string>, t: string, n: nat) returns (w: seq<string>)
    requires WellFormed(g) && Dispatch(g, run) && Exhausted(g, Elements(run)) && t in g.names && t !in run
    ensures |w| == n + 1 && Walk(g, w) && w[0] == t && forall x :: x in w ==> x in g.names
    decreases n
  {
    if n == 0 {
      w := [t];
    } else {
      var u := StuckHasStuckUpstream(g, run, t);
      var v := LongWalk(g, run, u, n - 1);
      w := [t] + v;
      forall i | 0 <= i < |w| - 1 ensures DependsOn(g, w[i], w[i + 1]) {
        if i > 0 { assert DependsOn(g, v[i - 1], v[i - 1 + 1]); }
      }
    }
  }

  lemma Pigeonhole(w: seq<string>, s: set<string>) returns (i: nat, j: nat)
    requires |w| > |s| && forall x :: x in w ==> x in s
    ensures i < j < |w| && w[i] == w[j]
  {
    DistinctMeansNoRepeats(w);
    SubsetNotLarger((set x | x in w), s);
    i, j :| 0 <= i < j < |w| && w[i] == w[j];
  }

  lemma StuckMeansCycle(g: Graph, run: seq<string>, t: string) returns (c: seq<string>)
    requires WellFormed(g) && Dispatch(g, run) && Exhausted(g, Elements(run)) && t in g.names && t !in run
    ensures Cycle(g, c)
  {
    var w := LongWalk(g, run, t, |g.names|);
    var i, j := Pigeonhole(w, g.names);
    c := w[i..j + 1];
    forall k | 0 <= k < |c| - 1 ensures DependsOn(g, c[k], c[k + 1]) {
      assert DependsOn(g, w[i + k], w[i + k + 1]);
    }
  }

  /** No dispatch sequence gets past a cycle. */
  lemma {:induction false} CycleNeverReady(g: Graph, c: seq<string>, run: seq<string>, k: nat)
    requires Cycle(g, c) && Dispatch(g, run) && k <= |run|
    ensures forall i :: 0 <= i < |c| ==> c[i] !in run[..k]
  {
    if k > 0 {
      CycleNeverReady(g, c, run, k - 1);
      assert run[..k] == run[..k - 1] + [run[k - 1]];
      forall i | 0 <= i < |c| ensures c[i] != run[k - 1] {
        var i' := if i == |c| - 1 then 0 else i;
        assert c[i'] == c[i] && DependsOn(g, c[i'], c[i' + 1]);
        if c[i] == run[k - 1] {
          NeedsUpstream(g, run, k - 1, c[i' + 1]);
          assert false;
        }
      }
    }
  }

  lemma NeedsUpstream(g: Graph, run: seq<string>, i: nat, u: string)
    requires Dispatch(g, run) && i < |run| && DependsOn(g, run[i], u)
    ensures u in run[..i]
  {
    assert (u, run[i]).1 == run[i];
    assert u in Upstreams(g, run[i]);
    EligibleIsNode(g, run[i], Elements(run[..i]));
  }

  /** Something is stuck exactly when the graph has a cycle. */
  lemma NothingStuckExactly(g: Graph, run: seq<string>)
    requires WellFormed(g) && Dispatch(g, run) && Exhausted(g, Elements(run))
    ensures (forall t :: t in g.names ==> t in run) <==> Acyclic(g)
  {
    hide Cycle, Exhausted;
    if t :| t in g.names && t !in run {
      var c := StuckMeansCycle(g, run, t);
    } else {
      forall c ensures !Cycle(g, c) {
        if Cycle(g, c) {
          CycleNeverReady(g, c, run, |run|);
          assert run[..|run|] == run;
          CycleHasNode(g, c);
          assert false;
        }
      }
    }
  }

  lemma CycleHasNode(g: Graph, c: seq<string>)
    requires WellFormed(g) && Cycle(g, c)
    ensures |c| >= 2 && c[0] in g.names
  {
    assert DependsOn(g, c[0], c[1]);
    assert (c[1], c[0]).1 == c[0];
  }

  // ----- the object ------------------------------------------------------------------------

  class TemplateDag {
    var graph: Graph

    constructor ()
      ensures graph == Graph({}, {})
    {
      graph := Graph({}, {});
    }

    /** Register a template and its upstreams; every named upstream becomes a node too. */
    method Add(template: string, upstreams: seq<string>)
      requires WellFormed(graph)
      modifies this
      ensures WellFormed(graph)
      ensures graph.names == old(graph.names) + {template} + Elements(upstreams)
      ensures graph.edges == old(graph.edges) + set u | u in upstreams :: (u, template)
    {
      ghost var start := graph;
      graph := graph.(names := graph.names + {template});
      var i := 0;
      while i < |upstreams|
        invariant 0 <= i <= |upstreams|
        invariant graph.names == start.names + {template} + Elements(upstreams[..i])
        invariant graph.edges == start.edges + set u | u in upstreams[..i] :: (u, template)
      {
        var u := upstreams[i];
        assert upstreams[..i + 1] == upstreams[..i] + [u];
        graph := Graph(graph.names + {u}, graph.edges + {(u, template)});
        i := i + 1;
      }
      assert upstreams[..i] == upstreams;
      forall e | e in graph.edges ensures e.0 in graph.names && e.1 in graph.names {}
    }

    /** `unresolvable_nodes`: grow the ready set until nothing changes; the rest, in order, is the answer. */
    method UnresolvableNodes() returns (r: seq<string>)
      ensures forall t :: t in r <==> Stuck(graph, t)
      ensures Sorted(r, StrLe) && NoRepeats(r)
      ensures WellFormed(graph) ==> (r == [] <==> Acyclic(graph))
      ensures WellFormed(graph) ==> forall t :: t in r ==> exists u :: u in r && DependsOn(graph, t, u)
    {
      hide *;
      var ready, run := Saturate(graph);
      r := Remaining(graph, ready);
      StuckAreRemaining(graph, run, r);
    }
  }

  method Remaining(g: Graph, ready: set<string>) returns (r: seq<string>)
    ensures Sorted(r, StrLe) && NoRepeats(r) && forall t :: t in r <==> t in g.names && t !in ready
  {
    StrLeIsTotalOrder();
    r := InOrder(g.names - ready, StrLe);
  }

  method Saturate(g: Graph) returns (ready: set<string>, ghost run: seq<string>)
    ensures ready == Elements(run) && Dispatch(g, run) && Exhausted(g, ready)
  {
    StrLeIsTotalOrder();
    var names := InOrder(g.names, StrLe);
    hide StrLe, TotalOrder, Eligible, Exhausted;
    ready, run := {}, [];
    var grew := true;
    while grew
      invariant ready == Elements(run) && Dispatch(g, run) && ready <= g.names
      invariant !grew ==> Exhausted(g, ready)
      decreases |g.names| - |ready|, grew
    {
      ghost var before := ready;
      ready, run, grew := Sweep(g, names, ready, run);
      SubsetNotLarger(ready, g.names);
      if grew { StrictlyMore(before, ready); }
    }
  }

  lemma StuckAreRemaining(g: Graph, run: seq<string>, r: seq<string>)
    requires Dispatch(g, run) && Exhausted(g, Elements(run))
    requires forall t :: t in r <==> t in g.names && t !in Elements(run)
    ensures forall t :: t in r <==> Stuck(g, t)
    ensures WellFormed(g) ==> (r == [] <==> Acyclic(g))
    ensures WellFormed(g) ==> forall t :: t in r ==> exists u :: u in r && DependsOn(g, t, u)
  {
    hide Eligible, Dispatch, Exhausted, Acyclic, WellFormed, DependsOn;
    MaximalRunsAgree(g, run);
    if WellFormed(g) {
      NothingStuckExactly(g, run);
      if r != [] { assert r[0] in r; }
      forall t | t in r ensures exists u :: u in r && DependsOn(g, t, u) {
        var u := StuckHasStuckUpstream(g, run, t);
        assert u in r;
      }
    }
  }

  lemma StrictlyMore(a: set<string>, b: set<string>)
    requires a < b
    ensures |a| < |b|
  {
    var x :| x in b && x !in a;
    SubsetNotLarger(a, b - {x});
  }

  /** One pass over the names. */
  method Sweep(g: Graph, names: seq<string>, ready: set<string>, ghost run: seq<string>)
    returns (ready': set<string>, ghost run': seq<string>, grew: bool)
    requires (forall t :: t in names <==> t in g.names) && ready == Elements(run) && Dispatch(g, run) &&
            ready <= g.names
    ensures ready' == Elements(run') && Dispatch(g, run') && ready' <= g.names
    ensures if grew then ready < ready' else ready' == ready && Exhausted(g, ready)
  {
    ready', run', grew := ready, run, false;
    var i := 0;
    hide Dispatch, Eligible;
    while i < |names|
      invariant 0 <= i <= |names|
      invariant ready' == Elements(run') && Dispatch(g, run') && ready' <= g.names
      invariant if grew then ready < ready' else ready' == ready
      invariant !grew ==> forall j :: 0 <= j < i ==> names[j] !in Eligible(g, ready)
    {
      var t := names[i];
      assert t in names;
      EligibleMeans(g, t, ready');
      if t !in ready' && DepsSatisfied(g, t, ready') {
        DispatchStep(g, run', t);
        ready', run', grew := ready' + {t}, run' + [t], true;
      }
      i := i + 1;
    }
    if !grew { NoneLeft(g, names, ready); }
  }

  lemma EligibleMeans(g: Graph, t: string, ready: set<string>)
    ensures t in Eligible(g, ready) <==> t in g.names && t !in ready && DepsSatisfied(g, t, ready)
  {
  }

  lemma NoneLeft(g: Graph, names: seq<string>, ready: set<string>)
    requires forall t :: t in names <==> t in g.names
    requires forall j :: 0 <= j < |names| ==> names[j] !in Eligible(g, ready)
    ensures Exhausted(g, ready)
  {
    forall t ensures t !in Eligible(g, ready) {
      EligibleMeans(g, t, ready);
      if t in names { var j :| 0 <= j < |names| && names[j] == t; }
    }
  }
}
