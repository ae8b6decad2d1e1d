/** What the two solvers share: costs that may be infinite, the priority
    queue of `(key, position)` pairs that pops its least pair, and routes
    over the traversable edges of a graph, named edge by edge. */
module Routes {
  import opened Records

  // ---------------------------------------------------------------------
  // Costs with infinity

  /** A solver's cost: a finite value or `infinity()`. */
  datatype Cost = Inf | Fin(r: real)

  /** `a < b` on doubles where `Inf` is the infinity. */
  predicate Less(a: Cost, b: Cost)
  {
    a.Fin? && (b.Inf? || a.r < b.r)
  }

  /** `a <= b` on doubles where `Inf` is the infinity. */
  predicate AtMost(a: Cost, b: Cost)
  {
    b.Inf? || (a.Fin? && a.r <= b.r)
  }

  /** `a + c` for a finite edge cost `c`; infinity absorbs it. */
  function Plus(a: Cost, c: real): Cost
  {
    if a.Inf? then Inf else Fin(a.r + c)
  }

  lemma CostOrder(a: Cost, b: Cost, c: Cost)
    ensures Less(a, b) <==> !AtMost(b, a)
    ensures AtMost(a, b) && AtMost(b, c) ==> AtMost(a, c)
    ensures AtMost(a, b) && AtMost(b, a) ==> a == b
  {
  }

  // ---------------------------------------------------------------------
  // The priority queue

  /** An entry of the queue: a key and a position. */
  type Entry = (Cost, nat)

  /** The order of `std::pair`: by key, then by position. */
  predicate EntryAtMost(a: Entry, b: Entry)
  {
    Less(a.0, b.0) || (a.0 == b.0 && a.1 <= b.1)
  }

  /** The index of an entry that no other entry is below: the entry a
      min-queue pops next. */
  function MinIndex(q: seq<Entry>): (i: nat)
    requires |q| > 0
    ensures i < |q|
    ensures forall j :: 0 <= j < |q| ==> EntryAtMost(q[i], q[j])
  {
    if |q| == 1 then 0
    else
      var k := MinIndex(q[..|q| - 1]);
      assert forall j :: 0 <= j < |q| - 1 ==> q[..|q| - 1][j] == q[j];
      if EntryAtMost(q[k], q[|q| - 1]) then k else |q| - 1
  }

  /** The queue without the entry at index `i`. */
  function RemoveAt(q: seq<Entry>, i: nat): (r: seq<Entry>)
    requires i < |q|
    ensures |r| == |q| - 1
    ensures multiset(r) == multiset(q) - multiset{q[i]}
  {
    assert q == q[..i] + [q[i]] + q[i + 1..];
    q[..i] + q[i + 1..]
  }

  // ---------------------------------------------------------------------
  // Routes

  /** Edge number `index` in the list of the vertex at `at`. */
  datatype Arc = Arc(at: nat, index: nat)

  /** The arc names a traversable edge of the graph. */
  ghost predicate IsArc(vs: map<nat, Node>, a: Arc)
  {
    a.at in vs && a.index < |vs[a.at].edges| && Traversable(vs[a.at].edges[a.index])
  }

  ghost function Head(vs: map<nat, Node>, a: Arc): nat
    requires IsArc(vs, a)
  {
    vs[a.at].edges[a.index].dst
  }

  ghost function ArcCost(vs: map<nat, Node>, a: Arc): real
    requires IsArc(vs, a)
  {
    vs[a.at].edges[a.index].cost
  }

  /** `r` leads from `s` to `t` over traversable edges, each starting at
      the vertex the previous one leads to. */
  ghost predicate IsRoute(vs: map<nat, Node>, s: nat, r: seq<Arc>, t: nat)
    decreases |r|
  {
    if r == [] then s == t
    else
      var a := r[|r| - 1];
      IsArc(vs, a) && Head(vs, a) == t && IsRoute(vs, s, r[..|r| - 1], a.at)
  }

  ghost function RouteCost(vs: map<nat, Node>, s: nat, r: seq<Arc>, t: nat): real
    requires IsRoute(vs, s, r, t)
    decreases |r|
  {
    if r == [] then 0.0
    else
      var a := r[|r| - 1];
      RouteCost(vs, s, r[..|r| - 1], a.at) + ArcCost(vs, a)
  }

  /** The positions a route visits, from `s` to `t`. */
  ghost function Positions(vs: map<nat, Node>, s: nat, r: seq<Arc>, t: nat): (p: seq<nat>)
    requires IsRoute(vs, s, r, t)
    ensures |p| == |r| + 1 && p[0] == s && p[|p| - 1] == t
    decreases |r|
  {
    if r == [] then [s]
    else
      var a := r[|r| - 1];
      Positions(vs, s, r[..|r| - 1], a.at) + [t]
  }

  /** Some route leads from `s` to `t`. */
  ghost predicate Reaches(vs: map<nat, Node>, s: nat, t: nat)
  {
    exists r :: IsRoute(vs, s, r, t)
  }

  /** `r` is a route from `s` to `t` no other route undercuts. */
  ghost predicate Shortest(vs: map<nat, Node>, s: nat, r: seq<Arc>, t: nat)
  {
    && IsRoute(vs, s, r, t)
    && forall r' :: IsRoute(vs, s, r', t) ==> RouteCost(vs, s, r, t) <= RouteCost(vs, s, r', t)
  }

  /** Every traversable edge costs at least zero. */
  ghost predicate NonNegative(vs: map<nat, Node>)
  {
    forall u, j :: u in vs && 0 <= j < |vs[u].edges| && Traversable(vs[u].edges[j]) ==>
      vs[u].edges[j].cost >= 0.0
  }

  /** Every stored edge leads to a vertex of the graph. */
  ghost predicate HeadsIn(vs: map<nat, Node>)
  {
    forall u, j :: u in vs && 0 <= j < |vs[u].edges| ==> vs[u].edges[j].dst in vs
  }

  /** Extending a route by one traversable edge at its end. */
  lemma RouteSnoc(vs: map<nat, Node>, s: nat, r: seq<Arc>, t: nat, a: Arc)
    requires IsRoute(vs, s, r, t) && IsArc(vs, a) && a.at == t
    ensures IsRoute(vs, s, r + [a], Head(vs, a))
    ensures RouteCost(vs, s, r + [a], Head(vs, a)) == RouteCost(vs, s, r, t) + ArcCost(vs, a)
    ensures Positions(vs, s, r + [a], Head(vs, a)) == Positions(vs, s, r, t) + [Head(vs, a)]
  {
    assert (r + [a])[..|r|] == r;
  }

  /** Putting one traversable edge in front of a route. */
  lemma {:induction false} RoutePrepend(vs: map<nat, Node>, a: Arc, s: nat, r: seq<Arc>, t: nat)
    requires IsArc(vs, a) && Head(vs, a) == s && IsRoute(vs, s, r, t)
    ensures IsRoute(vs, a.at, [a] + r, t)
    ensures RouteCost(vs, a.at, [a] + r, t) == ArcCost(vs, a) + RouteCost(vs, s, r, t)
    ensures Positions(vs, a.at, [a] + r, t) == [a.at] + Positions(vs, s, r, t)
    decreases |r|
  {
    if r == [] {
      assert [a] + r == [a];
      assert [a][..0] == [];
    } else {
      var init, b := r[..|r| - 1], r[|r| - 1];
      RoutePrepend(vs, a, s, init, b.at);
      assert ([a] + r)[..|r|] == [a] + init;
      assert ([a] + r)[|r|] == b;
    }
  }

  /** Every arc of a route is an arc of the graph. */
  lemma {:induction false} RouteArcs(vs: map<nat, Node>, s: nat, r: seq<Arc>, t: nat)
    requires IsRoute(vs, s, r, t)
    ensures forall i :: 0 <= i < |r| ==> IsArc(vs, r[i])
    decreases |r|
  {
    if r != [] {
      var init := r[..|r| - 1];
      RouteArcs(vs, s, init, r[|r| - 1].at);
      assert forall i :: 0 <= i < |init| ==> r[i] == init[i];
    }
  }

  /** A route that leads to a vertex starts at a vertex. */
  lemma {:induction false} RouteStartsIn(vs: map<nat, Node>, s: nat, r: seq<Arc>, t: nat)
    requires IsRoute(vs, s, r, t) && t in vs
    ensures s in vs
    decreases |r|
  {
    if r != [] {
      var a := r[|r| - 1];
      RouteStartsIn(vs, s, r[..|r| - 1], a.at);
    }
  }

  /** Costs that no traversable edge can lower are lower bounds on the cost
      of every route: `d[t] <= d[s] + cost` along any route from `s`. */
  lemma {:induction false} RelaxedBound(vs: map<nat, Node>, d: map<nat, Cost>, s: nat, r: seq<Arc>, t: nat)
    requires vs.Keys <= d.Keys
    requires forall u, j :: u in vs && 0 <= j < |vs[u].edges| && Traversable(vs[u].edges[j]) ==>
      vs[u].edges[j].dst in d && AtMost(d[vs[u].edges[j].dst], Plus(d[u], vs[u].edges[j].cost))
    requires IsRoute(vs, s, r, t) && s in d
    ensures t in d && AtMost(d[t], Plus(d[s], RouteCost(vs, s, r, t)))
    decreases |r|
  {
    if r != [] {
      var a := r[|r| - 1];
      RelaxedBound(vs, d, s, r[..|r| - 1], a.at);
    }
  }

  // ---------------------------------------------------------------------
  // Relaxation

  /** No traversable edge of `w` can lower the cost of its head. */
  ghost predicate Relaxed(vs: map<nat, Node>, costs: map<nat, Cost>, w: nat)
    requires w in vs && w in costs
  {
    forall j :: 0 <= j < |vs[w].edges| && Traversable(vs[w].edges[j]) ==>
      vs[w].edges[j].dst in costs && AtMost(costs[vs[w].edges[j].dst], Plus(costs[w], vs[w].edges[j].cost))
  }

  /** The traversable edges of `u` before index `j` are relaxed. */
  ghost predicate RelaxedBelow(vs: map<nat, Node>, costs: map<nat, Cost>, u: nat, j: nat)
    requires u in vs
  {
    forall k :: 0 <= k < j && k < |vs[u].edges| && Traversable(vs[u].edges[k]) ==>
      u in costs && vs[u].edges[k].dst in costs &&
      AtMost(costs[vs[u].edges[k].dst], Plus(costs[u], vs[u].edges[k].cost))
  }

  /** An edge that is not traversable, or that cannot lower its head,
      counts as relaxed. */
  lemma RelaxedBelowKept(vs: map<nat, Node>, costs: map<nat, Cost>, u: nat, j: nat)
    requires u in vs && u in costs && j < |vs[u].edges| && vs[u].edges[j].dst in costs
    requires RelaxedBelow(vs, costs, u, j)
    requires Traversable(vs[u].edges[j]) ==> !Less(Plus(costs[u], vs[u].edges[j].cost), costs[vs[u].edges[j].dst])
    ensures RelaxedBelow(vs, costs, u, j + 1)
  {
  }

  /** Lowering the head of edge `j` of `u` to the cost through that edge
      relaxes it and keeps the earlier edges relaxed. */
  lemma RelaxedBelowLowered(vs: map<nat, Node>, costs: map<nat, Cost>, u: nat, j: nat, total: Cost)
    requires u in vs && u in costs && j < |vs[u].edges| && vs[u].edges[j].dst in costs
    requires vs[u].edges[j].dst != u && total == Plus(costs[u], vs[u].edges[j].cost)
    requires AtMost(total, costs[vs[u].edges[j].dst])
    requires RelaxedBelow(vs, costs, u, j)
    ensures RelaxedBelow(vs, costs[vs[u].edges[j].dst := total], u, j + 1)
  {
  }

  // ---------------------------------------------------------------------
  // Sequences

  /** The reverse of a sequence. */
  function Reverse(s: seq<nat>): (r: seq<nat>)
    ensures |r| == |s|
    ensures forall i :: 0 <= i < |s| ==> r[i] == s[|s| - 1 - i]
  {
    if s == [] then [] else [s[|s| - 1]] + Reverse(s[..|s| - 1])
  }

  /** Reversing after appending puts the new element first. */
  lemma ReverseSnoc(s: seq<nat>, x: nat)
    ensures Reverse(s + [x]) == [x] + Reverse(s)
  {
    assert (s + [x])[..|s|] == s;
  }

  /** Reversing after prepending puts the new element last. */
  lemma ReverseCons(x: nat, s: seq<nat>)
    ensures Reverse([x] + s) == Reverse(s) + [x]
  {
    var r, t := Reverse([x] + s), Reverse(s) + [x];
    assert forall i :: 0 <= i < |r| ==> r[i] == t[i];
  }

  /** An entry other than the one removed stays in the queue. */
  lemma RemoveAtKeeps(q: seq<Entry>, i: nat, e: Entry)
    requires i < |q| && e in q && e != q[i]
    ensures e in RemoveAt(q, i)
  {
    assert e in multiset(q);
    assert e in multiset(RemoveAt(q, i));
  }

  /** Every entry left in the queue was in it before. */
  lemma RemoveAtFrom(q: seq<Entry>, i: nat)
    requires i < |q|
    ensures forall k :: 0 <= k < |RemoveAt(q, i)| ==> RemoveAt(q, i)[k] in q
  {
    var r := RemoveAt(q, i);
    forall k | 0 <= k < |r| ensures r[k] in q {
      assert r[k] in multiset(r);
    }
  }
}
