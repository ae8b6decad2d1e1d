/** Plain records shared by the graph, the solvers and the file reader/writer.
    Vertices are identified by their position (an unsigned integer in the
    source); edges inside the graph refer to their endpoints by position
    instead of by pointer. */
module Records {

  /** The largest `unsigned int`; Dijkstra uses it as "no predecessor". */
  const UINT_MAX: nat := 0xFFFF_FFFF

  /** The cost that marks an edge as not traversable. */
  const SENTINEL: real := -1.0

  /** `(source position, destination position, cost)`: an edge descriptor,
      and the graph's own record of an outgoing edge. */
  datatype EdgeElem = EdgeElem(src: nat, dst: nat, cost: real)

  /** `(position, x, y)`: a vertex descriptor. */
  datatype VertexElem = VertexElem(position: nat, x: real, y: real)

  /** One element of the edge-list mesh format: both endpoints with their
      coordinates, and the cost of the edge from the first to the second. */
  datatype MeshElem = MeshElem(src: VertexElem, dst: VertexElem, cost: real)

  /** A vertex as the graph stores it: position, coordinates and its
      outgoing edges in insertion order. */
  datatype Node = Node(position: nat, x: real, y: real, edges: seq<EdgeElem>)

  /** The solvers skip exactly the edges whose cost equals the sentinel. */
  predicate Traversable(e: EdgeElem) {
    e.cost != SENTINEL
  }
}
