/** The `Vertex` object: a position, fixed coordinates and the list of
    edge objects it owns, in insertion order. Coordinates use the
    instantiation `double` of the source's value type. */
module Vertices {
  import opened Edges

  /** `std::numeric_limits<double>::max()`, exactly (2^53 - 1) * 2^971. */
  const DBL_MAX: real := 179769313486231570814527423731704356798070567525844996598917476803157260780028538760589558632766878171540458953514382464234321326889464182768467546703537516986049910576551282076245490090389328944075868508455133942304583236903222948165808559332123348274797826204144723168738177180919299881250404026184124858368.0

  /** `std::numeric_limits<double>::lowest()`. */
  const DBL_LOWEST: real := -DBL_MAX

  /** The edge list with every occurrence of the edge object `e` taken out,
      the rest in their original order (erase-remove). */
  function Without(s: seq<Edge>, e: Edge): seq<Edge>
  {
    if s == [] then []
    else Without(s[..|s| - 1], e) + (if s[|s| - 1] == e then [] else [s[|s| - 1]])
  }

  /** `Without` drops exactly the occurrences of `e`: every other object
      keeps its number of occurrences. */
  lemma {:induction false} WithoutCounts(s: seq<Edge>, e: Edge)
    ensures e !in Without(s, e)
    ensures multiset(Without(s, e)) == multiset(s)[e := 0]
    ensures |Without(s, e)| == |s| - multiset(s)[e]
  {
    if s != [] {
      var init := s[..|s| - 1];
      WithoutCounts(init, e);
      assert s == init + [s[|s| - 1]];
    }
  }

  /** The vertex an edge leads to as seen from the vertex `me`: its
      destination when `me` is its source, its source otherwise. */
  function FarEnd(e: Edge, me: Ref): Ref
    reads e
  {
    if e.source == me then e.destination else e.source
  }

  class Vertex {
    const position: nat
    const x: real
    const y: real
    var edges: seq<Edge>

    /** `Vertex(position)`: at the origin, without edges. */
    constructor AtOrigin(p: nat)
      ensures position == p && x == 0.0 && y == 0.0 && edges == []
      ensures NumEdges() == 0
    {
      position, x, y := p, 0.0, 0.0;
      edges := [];
    }

    /** `Vertex(position, x, y)` and `Vertex(position, Point)`. */
    constructor (p: nat, px: real, py: real)
      ensures position == p && x == px && y == py && edges == []
    {
      position, x, y := p, px, py;
      edges := [];
    }

    /** `Vertex(position, x, y, edges)` and `Vertex(position, Point, edges)`. */
    constructor WithEdges(p: nat, px: real, py: real, es: seq<Edge>)
      ensures position == p && x == px && y == py && edges == es
    {
      position, x, y := p, px, py;
      edges := es;
    }

    /** This vertex as an edge endpoint. */
    function Me(): Ref
    {
      Ptr(position)
    }

    /** Replaces the whole edge list. */
    method SetEdges(es: seq<Edge>)
      modifies this
      ensures edges == es
    {
      edges := es;
    }

    /** Appends at the end: one more edge, the earlier ones unchanged. */
    method AddEdge(e: Edge)
      modifies this
      ensures edges == old(edges) + [e]
      ensures NumEdges() == old(NumEdges()) + 1 && IsConnectedToEdge(e)
    {
      edges := edges + [e];
    }

    /** Removes every occurrence of the edge object `e`, keeping the order
      of the others. */
    method RemoveEdge(e: Edge)
      modifies this
      ensures edges == Without(old(edges), e)
      ensures !IsConnectedToEdge(e)
      ensures multiset(edges) == multiset(old(edges))[e := 0]
    {
      var kept: seq<Edge> := [];
      for i := 0 to |edges|
        invariant kept == Without(edges[..i], e)
      {
        assert edges[..i + 1][..i] == edges[..i];
        if edges[i] != e {
          kept := kept + [edges[i]];
        }
      }
      assert edges[..|edges|] == edges;
      WithoutCounts(edges, e);
      edges := kept;
    }

    method ClearEdges()
      modifies this
      ensures edges == [] && NumEdges() == 0
    {
      edges := [];
    }

    /** The edge object is in this vertex's list, which is then not empty. */
    function IsConnectedToEdge(e: Edge): (linked: bool)
      reads this
      ensures linked <==> exists i :: 0 <= i < NumEdges() && edges[i] == e
      ensures linked ==> NumEdges() > 0
    {
      e in edges
    }

    /** The number of edges stored; zero exactly when there are none. */
    function NumEdges(): (n: nat)
      reads this
      ensures n == 0 <==> edges == []
    {
      |edges|
    }

    /** One entry per edge, in order: the far end of that edge. */
    method GetNeighboringVertices() returns (ns: seq<Ref>)
      ensures |ns| == |edges|
      ensures forall i :: 0 <= i < |edges| ==>
        ns[i] == (if edges[i].source == Me() then edges[i].destination else edges[i].source)
    {
      ns := [];
      for i := 0 to |edges|
        invariant |ns| == i
        invariant forall k :: 0 <= k < i ==> ns[k] == FarEnd(edges[k], Me())
      {
        var e := edges[i];
        if e.source == Me() {
          ns := ns + [e.destination];
        } else {
          ns := ns + [e.source];
        }
      }
    }

    /** The minimum of `DBL_MAX` and all edge costs. */
    method GetMinEdgeCost() returns (m: real)
      ensures m <= DBL_MAX
      ensures forall i :: 0 <= i < |edges| ==> m <= edges[i].cost
      ensures m == DBL_MAX || exists i :: 0 <= i < |edges| && edges[i].cost == m
    {
      m := DBL_MAX;
      for i := 0 to |edges|
        invariant m <= DBL_MAX
        invariant forall k :: 0 <= k < i ==> m <= edges[k].cost
        invariant m == DBL_MAX || exists k :: 0 <= k < i && edges[k].cost == m
      {
        if edges[i].cost < m {
          m := edges[i].cost;
        }
      }
    }

    /** The maximum of `lowest()` and all edge costs. */
    method GetMaxEdgeCost() returns (m: real)
      ensures m >= DBL_LOWEST
      ensures forall i :: 0 <= i < |edges| ==> m >= edges[i].cost
      ensures m == DBL_LOWEST || exists i :: 0 <= i < |edges| && edges[i].cost == m
    {
      m := DBL_LOWEST;
      for i := 0 to |edges|
        invariant m >= DBL_LOWEST
        invariant forall k :: 0 <= k < i ==> m >= edges[k].cost
        invariant m == DBL_LOWEST || exists k :: 0 <= k < i && edges[k].cost == m
      {
        if edges[i].cost > m {
          m := edges[i].cost;
        }
      }
    }
  }

  /** With no edges the extreme costs are the type's limits. */
  method EmptyVertexCosts(p: nat) returns (lo: real, hi: real)
    ensures lo == DBL_MAX && hi == DBL_LOWEST
  {
    var v := new Vertex.AtOrigin(p);
    lo := v.GetMinEdgeCost();
    hi := v.GetMaxEdgeCost();
  }
}
