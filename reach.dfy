/** Reachability as the graph's depth-first search sees it: from a vertex
    the search moves over each of its own edges to the edge's far end (the
    destination when the vertex is the edge's source, else the source). */
module Reach {
  import opened Records

  /** The vertex the search moves to over edge `e` of the vertex at `u`. */
  function Neighbor(e: EdgeElem, u: nat): nat
  {
    if e.src == u then e.dst else e.src
  }

  /** Every endpoint of every stored edge is a vertex of the graph. */
  ghost predicate Closed(vs: map<nat, Node>)
  {
    forall u, j :: u in vs && 0 <= j < |vs[u].edges| ==>
      vs[u].edges[j].src in vs && vs[u].edges[j].dst in vs
  }

  /** One move of the search: some edge of `u` has far end `w`. */
  ghost predicate Step(vs: map<nat, Node>, u: nat, w: nat)
  {
    u in vs && exists j :: 0 <= j < |vs[u].edges| && Neighbor(vs[u].edges[j], u) == w
  }

  /** A non-empty sequence of vertices joined by moves. */
  ghost predicate IsWalk(vs: map<nat, Node>, w: seq<nat>)
  {
    && |w| >= 1
    && (forall i :: 0 <= i < |w| ==> w[i] in vs)
    && (forall i :: 0 <= i < |w| - 1 ==> Step(vs, w[i], w[i + 1]))
  }

  ghost predicate Reachable(vs: map<nat, Node>, a: nat, b: nat)
  {
    exists w :: IsWalk(vs, w) && w[0] == a && w[|w| - 1] == b
  }

  /** Every vertex reaches itself. */
  lemma ReachableRefl(vs: map<nat, Node>, a: nat)
    requires a in vs
    ensures Reachable(vs, a, a)
  {
    assert IsWalk(vs, [a]);
  }

  /** A move followed by a walk is a walk. */
  lemma ReachablePrepend(vs: map<nat, Node>, a: nat, n: nat, b: nat)
    requires Step(vs, a, n) && Reachable(vs, n, b)
    ensures Reachable(vs, a, b)
  {
    var w :| IsWalk(vs, w) && w[0] == n && w[|w| - 1] == b;
    var w' := [a] + w;
    assert forall i :: 0 < i < |w'| ==> w'[i] == w[i - 1];
    assert IsWalk(vs, w');
  }

  /** A set that holds `a` and is closed under moves holds every vertex
      reachable from `a`. */
  lemma {:induction false} ClosedSetHoldsReachable(vs: map<nat, Node>, s: set<nat>, a: nat, b: nat)
    requires a in s
    requires forall u, w :: u in s && Step(vs, u, w) ==> w in s
    requires Reachable(vs, a, b)
    ensures b in s
  {
    var w :| IsWalk(vs, w) && w[0] == a && w[|w| - 1] == b;
    var i := 0;
    while i < |w| - 1
      invariant 0 <= i <= |w| - 1
      invariant w[i] in s
    {
      assert Step(vs, w[i], w[i + 1]);
      i := i + 1;
    }
  }

  /** On a graph whose edges all start at the vertex that stores them, a
      move follows an edge forward: the search is directed reachability. */
  lemma OwnedEdgesStepForward(vs: map<nat, Node>, u: nat, w: nat)
    requires u in vs
    requires forall j :: 0 <= j < |vs[u].edges| ==> vs[u].edges[j].src == u
    ensures Step(vs, u, w) <==> exists j :: 0 <= j < |vs[u].edges| && vs[u].edges[j].dst == w
  {
    if Step(vs, u, w) {
      var j :| 0 <= j < |vs[u].edges| && Neighbor(vs[u].edges[j], u) == w;
      assert vs[u].edges[j].dst == w;
    }
    if exists j :: 0 <= j < |vs[u].edges| && vs[u].edges[j].dst == w {
      var j :| 0 <= j < |vs[u].edges| && vs[u].edges[j].dst == w;
      assert Neighbor(vs[u].edges[j], u) == w;
    }
  }
}
