/** The cost reported for a solver's path. `get_path_cost` adds up every
    edge between consecutive positions, so parallel edges are counted
    together and an edge marked untraversable adds its sentinel cost. What
    the caller evidently wants, the cost of the route the solver found, is
    the sum of the cheapest traversable edge between consecutive positions;
    for a shortest route the two agree only without such edges. */
module PathCost {
  import opened Records
  import opened Routes
  import Graphs

  datatype Option<T> = None | Some(value: T)

  /** The index of the cheapest traversable edge of `es` that leads to `d`
      (the first among equals), if there is one. */
  function Cheapest(es: seq<EdgeElem>, d: nat): (r: Option<nat>)
    ensures r.Some? ==> r.value < |es| && Traversable(es[r.value]) && es[r.value].dst == d
    ensures r.Some? ==> forall k :: 0 <= k < |es| && Traversable(es[k]) && es[k].dst == d ==> es[r.value].cost <= es[k].cost
    ensures r.None? ==> forall k :: 0 <= k < |es| ==> !Traversable(es[k]) || es[k].dst != d
  {
    if es == [] then None
    else
      var init := es[..|es| - 1];
      var r := Cheapest(init, d);
      var e := es[|es| - 1];
      assert forall k :: 0 <= k < |init| ==> init[k] == es[k];
      if Traversable(e) && e.dst == d && (r.None? || e.cost < es[r.value].cost) then Some(|es| - 1) else r
  }

  /** The path cost as intended: the cheapest traversable edge between each
      pair of consecutive positions, added up; infinite when some pair is
      not joined by a traversable edge. */
  function CheapestPathCost(vs: map<nat, Node>, path: seq<nat>): Cost
    requires |path| > 0
    decreases |path|
  {
    if |path| == 1 then Fin(0.0)
    else
      var c := CheapestPathCost(vs, path[..|path| - 1]);
      var u, d := path[|path| - 2], path[|path| - 1];
      if c.Inf? || u !in vs then Inf
      else
        match Cheapest(vs[u].edges, d)
        case None => Inf
        case Some(j) => Fin(c.r + vs[u].edges[j].cost)
  }

  /** The positions of a route without its last arc. */
  lemma PositionsInit(vs: map<nat, Node>, s: nat, r: seq<Arc>, t: nat)
    requires IsRoute(vs, s, r, t) && r != []
    ensures var p := Positions(vs, s, r, t);
      p[..|p| - 1] == Positions(vs, s, r[..|r| - 1], r[|r| - 1].at)
      && p[|p| - 2] == r[|r| - 1].at
  {
  }

  /** No route over the same positions is cheaper than the cheapest edges. */
  lemma {:induction false} CheapestBelow(vs: map<nat, Node>, s: nat, r: seq<Arc>, t: nat)
    requires IsRoute(vs, s, r, t)
    ensures var c := CheapestPathCost(vs, Positions(vs, s, r, t));
      c.Fin? && c.r <= RouteCost(vs, s, r, t)
    decreases |r|
  {
    if r != [] {
      var init, a := r[..|r| - 1], r[|r| - 1];
      CheapestBelow(vs, s, init, a.at);
      PositionsInit(vs, s, r, t);
    }
  }

  /** Some route over the positions costs exactly the cheapest edges. */
  lemma {:induction false} CheapestAttained(vs: map<nat, Node>, path: seq<nat>) returns (r: seq<Arc>)
    requires |path| > 0 && CheapestPathCost(vs, path).Fin?
    ensures IsRoute(vs, path[0], r, path[|path| - 1])
    ensures RouteCost(vs, path[0], r, path[|path| - 1]) == CheapestPathCost(vs, path).r
    decreases |path|
  {
    if |path| == 1 {
      r := [];
    } else {
      var init := path[..|path| - 1];
      var u, d := path[|path| - 2], path[|path| - 1];
      var q := CheapestAttained(vs, init);
      var j := Cheapest(vs[u].edges, d).value;
      RouteSnoc(vs, path[0], q, u, Arc(u, j));
      r := q + [Arc(u, j)];
    }
  }

  /** For a shortest route, such as the solvers find, the intended path
      cost is the route's cost. */
  lemma ShortestPathCost(vs: map<nat, Node>, s: nat, r: seq<Arc>, t: nat)
    requires Shortest(vs, s, r, t)
    ensures CheapestPathCost(vs, Positions(vs, s, r, t)) == Fin(RouteCost(vs, s, r, t))
  {
    var path := Positions(vs, s, r, t);
    CheapestBelow(vs, s, r, t);
    var q := CheapestAttained(vs, path);
  }

  /** Two parallel edges from 0 to 1, of cost 5 and 1: the path `[0, 1]`
      is reported at cost 6, though its cheapest edge costs 1. */
  lemma ParallelEdgesCounted()
    ensures var vs := map[0 := Node(0, 0.0, 0.0, [EdgeElem(0, 1, 5.0), EdgeElem(0, 1, 1.0)]),
                          1 := Node(1, 1.0, 0.0, [])];
      && Graphs.SumCosts(Graphs.PathEdges(vs, [0, 1])) == 6.0
      && CheapestPathCost(vs, [0, 1]) == Fin(1.0)
  {
    var es := [EdgeElem(0, 1, 5.0), EdgeElem(0, 1, 1.0)];
    assert es[..1] == [EdgeElem(0, 1, 5.0)];
    assert es[..1][..0] == [];
    assert Graphs.Matching(es[..1], 1) == [EdgeElem(0, 1, 5.0)];
    assert Graphs.Matching(es, 1) == es;
    assert [0, 1][..1] == [0];
    assert Graphs.SumCosts(es[..1]) == 5.0;
  }

  /** An untraversable edge from 0 to 1 beside one of cost 2: the path
      `[0, 1]` is reported at cost 1, the sentinel included. */
  lemma SentinelEdgeCounted()
    ensures var vs := map[0 := Node(0, 0.0, 0.0, [EdgeElem(0, 1, SENTINEL), EdgeElem(0, 1, 2.0)]),
                          1 := Node(1, 1.0, 0.0, [])];
      && Graphs.SumCosts(Graphs.PathEdges(vs, [0, 1])) == 1.0
      && CheapestPathCost(vs, [0, 1]) == Fin(2.0)
  {
    var es := [EdgeElem(0, 1, SENTINEL), EdgeElem(0, 1, 2.0)];
    assert es[..1] == [EdgeElem(0, 1, SENTINEL)];
    assert es[..1][..0] == [];
    assert Graphs.Matching(es[..1], 1) == [EdgeElem(0, 1, SENTINEL)];
    assert Graphs.Matching(es, 1) == es;
    assert [0, 1][..1] == [0];
    assert Graphs.SumCosts(es[..1]) == SENTINEL;
  }
}
