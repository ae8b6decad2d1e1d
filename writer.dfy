/** `GraphFileWriter`: emits the three sections of the graph file, and the
    cost-and-distance section, one line at a time. The file is the sequence
    of lines written so far; `show` is how `<<` prints a double. */
module Writer {
  import opened Records
  import opened Text

  /** The lines of `write_start_end`. */
  function StartEndBlock(start: nat, end: nat): seq<string>
  {
    ["# Start and end vertices", Join([Digits(start), Digits(end)]), ""]
  }

  /** The coordinates of a vertex convert to `unsigned int`. */
  predicate InRange(v: VertexElem)
  {
    v.position <= UINT_MAX && -1.0 < v.x < 4294967296.0 && -1.0 < v.y < 4294967296.0
  }

  /** One line of `write_vertices`: the position and both coordinates
      converted to `unsigned int`. */
  function VertexLine(v: VertexElem): string
    requires InRange(v)
  {
    Join([Digits(v.position), Digits(Truncate(v.x)), Digits(Truncate(v.y))])
  }

  function VertexLines(vs: seq<VertexElem>): (r: seq<string>)
    requires forall k :: 0 <= k < |vs| ==> InRange(vs[k])
    ensures |r| == |vs|
  {
    seq(|vs|, k requires 0 <= k < |vs| => VertexLine(vs[k]))
  }

  /** The lines of one more vertex. */
  lemma VertexLinesSnoc(vs: seq<VertexElem>, k: nat)
    requires k < |vs| && forall m :: 0 <= m < |vs| ==> InRange(vs[m])
    ensures VertexLines(vs[..k + 1]) == VertexLines(vs[..k]) + [VertexLine(vs[k])]
  {
    assert VertexLines(vs[..k + 1]) == VertexLines(vs[..k]) + [VertexLine(vs[k])];
  }

  /** The lines of `write_vertices`. */
  function VertexBlock(vs: seq<VertexElem>): seq<string>
    requires forall k :: 0 <= k < |vs| ==> InRange(vs[k])
  {
    ["# Vertices"] + VertexLines(vs) + [""]
  }

  /** Both endpoints of an edge are `unsigned int` positions. */
  predicate EdgeInRange(e: EdgeElem)
  {
    e.src <= UINT_MAX && e.dst <= UINT_MAX
  }

  /** One line of `write_edges`: both endpoints converted to `int`, and the
      cost. */
  function EdgeLine(show: real -> string, e: EdgeElem): string
    requires EdgeInRange(e)
  {
    Join([IntText(ToInt32(e.src)), IntText(ToInt32(e.dst)), show(e.cost)])
  }

  function EdgeLines(show: real -> string, es: seq<EdgeElem>): (r: seq<string>)
    requires forall k :: 0 <= k < |es| ==> EdgeInRange(es[k])
    ensures |r| == |es|
  {
    seq(|es|, k requires 0 <= k < |es| => EdgeLine(show, es[k]))
  }

  /** The lines of one more edge. */
  lemma EdgeLinesSnoc(show: real -> string, es: seq<EdgeElem>, k: nat)
    requires k < |es| && forall m :: 0 <= m < |es| ==> EdgeInRange(es[m])
    ensures EdgeLines(show, es[..k + 1]) == EdgeLines(show, es[..k]) + [EdgeLine(show, es[k])]
  {
    assert EdgeLines(show, es[..k + 1]) == EdgeLines(show, es[..k]) + [EdgeLine(show, es[k])];
  }

  /** The lines of `write_edges` for a section called `name`. */
  function EdgeBlock(show: real -> string, es: seq<EdgeElem>, name: string): seq<string>
    requires forall k :: 0 <= k < |es| ==> EdgeInRange(es[k])
  {
    ["# " + name + " edges"] + EdgeLines(show, es) + [""]
  }

  /** The lines of `write_cost_distance`. */
  function CostDistanceBlock(show: real -> string, cost: real, distance: real): seq<string>
  {
    ["# Cost and distance", Join([show(cost), show(distance)]), ""]
  }

  class GraphFileWriter {
    /** The lines written so far. */
    var file: seq<string>
    const show: real -> string

    /** Opens an empty file. */
    constructor (show: real -> string)
      ensures file == [] && this.show == show
    {
      file := [];
      this.show := show;
    }

    method WriteStartEnd(start: nat, end: nat)
      modifies this
      ensures file == old(file) + StartEndBlock(start, end)
    {
      file := file + ["# Start and end vertices"];
      file := file + [Join([Digits(start), Digits(end)])];
      file := file + [""];
    }

    method WriteVertices(vertices: seq<VertexElem>)
      requires forall k :: 0 <= k < |vertices| ==> InRange(vertices[k])
      modifies this
      ensures file == old(file) + VertexBlock(vertices)
    {
      file := file + ["# Vertices"];
      for k := 0 to |vertices|
        invariant file == old(file) + ["# Vertices"] + VertexLines(vertices[..k])
      {
        file := file + [VertexLine(vertices[k])];
        VertexLinesSnoc(vertices, k);
      }
      file := file + [""];
      assert vertices[..|vertices|] == vertices;
    }

    method WriteEdges(edges: seq<EdgeElem>, name: string := "optimal path")
      requires forall k :: 0 <= k < |edges| ==> EdgeInRange(edges[k])
      modifies this
      ensures file == old(file) + EdgeBlock(show, edges, name)
    {
      file := file + ["# " + name + " edges"];
      for k := 0 to |edges|
        invariant file == old(file) + ["# " + name + " edges"] + EdgeLines(show, edges[..k])
      {
        file := file + [EdgeLine(show, edges[k])];
        EdgeLinesSnoc(show, edges, k);
      }
      file := file + [""];
      assert edges[..|edges|] == edges;
    }

    method WriteCostDistance(cost: real, distance: real)
      modifies this
      ensures file == old(file) + CostDistanceBlock(show, cost, distance)
    {
      file := file + ["# Cost and distance"];
      file := file + [Join([show(cost), show(distance)])];
      file := file + [""];
    }
  }
}
