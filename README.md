# Pathfinder core in Dafny

This project models the core of a small C++ path finder.

- **Graph objects.** An `Edge` is directed and weighted; a cost of `-1` marks it as not traversable. A `Vertex` owns its edges. A `Graph` maps each position to its vertex and keeps the marks of its depth-first search and three stored result paths.
- **Solvers.** Dijkstra's algorithm and A* run over that graph. Both use a binary-heap priority queue of `(key, position)` pairs.
- **File format.** A line-oriented format holds the start and end positions, the vertices and the edges. One class reads it and another writes it.

Each C++ entity keeps its own form:

- **Objects** whose fields are updated in place become Dafny classes: `Edges.Edge`, `Vertices.Vertex`, `Graphs.Graph`, `Reader.GraphFileReader` and `Writer.GraphFileWriter`. Their methods carry `modifies` clauses and state their new state.
- **Graph vertices** live inside `Graphs.Graph` as `Node` values keyed by position. Each stored edge names its endpoints by position rather than by pointer.
- **Solvers** are methods with the source's loops. The queue is a sequence that pops its least pair (`Routes.MinIndex`). Costs are `Routes.Cost`, a finite real or infinity.

Each operation is proved against a specification:

- **Dijkstra** returns the positions of a shortest route over traversable edges when the end can be reached (`[start]` when it is the start), and `[start, end]` otherwise. An end that is not a vertex has no predecessor entry; the lookup inserts 0, so the path is the one found for 0 followed by the end.
- **A\*** returns the positions of some route to the goal when there is one (`[start]` when the goal is the start), `[start]` when there is none, and `[]` when the goal is not a vertex.
- **Depth-first search** marks exactly the vertices reachable from its start.
- **The mesh builders** produce the graph described by their descriptors.
- **A written file reads back** as what was written, with vertex coordinates truncated to integers as the writer does.

Coordinates are modelled as `real`, the `double` instantiation the application uses. Printing and parsing a `double` are parameters (`show`, `parse`); the round trip assumes only that `parse` reads back what `show` prints and reads integers as themselves.

Several properties are proved with ghost state that the source does not have:

- **Termination.** Both solver loops are proved to end. Dijkstra's loop settles a new vertex or shortens the queue on every pop (`decreases vs.Keys - settled, |queue|`). A\* has no closed set and may reopen a vertex. Every g-score it records is the cost of a route that repeats no edge, and a graph has only finitely many of those, so the set of g-scores still possible (`AStar.Pending`) shrinks on every improvement.
- **The predecessor walk back ends.** Predecessors only point to vertices settled earlier.
- **IsConnected.** The vertex the map happens to yield first is a ghost out-parameter (`root`).

## Model

| member | source | states |
|---|---|---|
| Edges.Edge.Default | include/graph/edge.hpp:58 | no endpoints, cost 0, and the edge is not valid |
| Edges.Edge.WithCost | include/graph/edge.hpp:61 | no endpoints, the given cost, not valid |
| Edges.Edge.constructor | include/graph/edge.hpp:64 | endpoints and cost as given; valid exactly when both endpoints are set |
| Edges.Edge.SetSource | include/graph/edge.hpp:70-73 | the source becomes the argument; destination and cost are unchanged |
| Edges.Edge.SetDestination | include/graph/edge.hpp:76-79 | the destination becomes the argument; source and cost are unchanged |
| Edges.Edge.SetCost | include/graph/edge.hpp:82-85 | the cost becomes the argument; endpoints are unchanged |
| Edges.Edge.SetSourceDestination | include/graph/edge.hpp:88-92 | both endpoints set; cost unchanged |
| Edges.Edge.ReverseDirection | include/graph/edge.hpp:123-126 | source and destination swap; cost unchanged |
| Edges.Edge.UpdateCost | include/graph/edge.hpp:129-132 | the cost becomes the argument; endpoints are unchanged |
| Edges.Edge.IsValid | include/graph/edge.hpp:135-138 | valid exactly when the null reference is not one of the endpoints |
| Edges.Edge.IsConnected | include/graph/edge.hpp:141-144 | true exactly when the argument is the source or the destination |
| Edges.ReverseTwice | include/graph/edge.hpp:123-126 | reversing twice restores both endpoints and the cost |
| Edges.SetCostKeepsShape | include/graph/edge.hpp:135-144 | changing the cost leaves `is_valid` and `is_connected` answers as they were |
| Edges.ComparisonLaws | include/graph/edge.hpp:148-169 | `!=` negates `==`; `==` is reflexive, symmetric and transitive; `<` and `>` are converse and irreflexive, and they compare costs only, so equal edges are neither `<` nor `>` each other |
| Vertices.Vertex.AtOrigin | include/graph/vertex.hpp:65 | position as given, at (0, 0), without edges |
| Vertices.Vertex.constructor | include/graph/vertex.hpp:68-71 | position and coordinates as given, without edges |
| Vertices.Vertex.WithEdges | include/graph/vertex.hpp:74-77 | position, coordinates and edge list as given |
| Vertices.Vertex.SetEdges | include/graph/vertex.hpp:119-122 | the edge list becomes the argument |
| Vertices.Vertex.AddEdge | include/graph/vertex.hpp:125-128 | the edge is appended; the earlier edges are unchanged and the count grows by one |
| Vertices.Vertex.RemoveEdge | include/graph/vertex.hpp:131-134 | every occurrence of the edge object is removed; the others keep their order and their number of occurrences |
| Vertices.WithoutCounts | include/graph/vertex.hpp:131-134 | the erase-remove result lacks the edge, and its multiset is the old one with that edge's count set to zero |
| Vertices.Vertex.ClearEdges | include/graph/vertex.hpp:137-140 | no edges remain |
| Vertices.Vertex.IsConnectedToEdge | include/graph/vertex.hpp:144-147 | true exactly when the edge object occurs in the edge list, which is then not empty |
| Vertices.Vertex.NumEdges | include/graph/vertex.hpp:150-153 | zero exactly when the vertex has no edges |
| Vertices.Vertex.GetNeighboringVertices | include/graph/vertex.hpp:156-171 | one entry per edge, in order: its destination when this vertex is its source, its source otherwise |
| Vertices.Vertex.GetMinEdgeCost | include/graph/vertex.hpp:174-182 | at most `DBL_MAX` and every edge cost, and equal to `DBL_MAX` or to some edge cost |
| Vertices.Vertex.GetMaxEdgeCost | include/graph/vertex.hpp:185-193 | at least `lowest()` and every edge cost, and equal to `lowest()` or to some edge cost |
| Vertices.EmptyVertexCosts | include/graph/vertex.hpp:174-193 | a vertex without edges reports `DBL_MAX` and `lowest()` |
| Graphs.Graph.constructor | include/graph/graph.hpp:86 | no vertices, no marks, empty stored paths |
| Graphs.Graph.FromMap | include/graph/graph.hpp:89-92 | the vertex map as given |
| Graphs.Graph.FromElements | include/graph/graph.hpp:95-98 | the graph holds exactly the mesh of the descriptors; every edge is stored at its source and lands on a vertex |
| Graphs.Graph.GetVertex | include/graph/graph.hpp:143-146 | the vertex stored at the position |
| Graphs.Graph.SetVertices | include/graph/graph.hpp:149-152 | the vertex map becomes the argument |
| Graphs.Graph.AddVertex | include/graph/graph.hpp:155-159 | inserted under its own position unless that position is taken, in which case nothing changes |
| Graphs.Graph.RemoveVertex | include/graph/graph.hpp:162-165 | the position is gone; every other vertex is unchanged |
| Graphs.Graph.VertexExists | include/graph/graph.hpp:168-171 | true exactly when a vertex is stored at the position |
| Graphs.Graph.IsEmpty | include/graph/graph.hpp:239-242 | empty exactly when the vertex count is zero, and then no position has a vertex |
| Graphs.Graph.NumVertices | include/graph/graph.hpp:245-248 | zero exactly when the vertex map is empty |
| Graphs.Graph.GetOptimalPath | include/graph/graph.hpp:292-295 | the stored optimal path, as `SetOptimalPath` last set it |
| Graphs.Graph.GetAStarPath | include/graph/graph.hpp:298-301 | the stored A* path, as `SetAStarPath` last set it |
| Graphs.Graph.GetDijkstraPath | include/graph/graph.hpp:304-307 | the stored Dijkstra path, as `SetDijkstraPath` last set it |
| Graphs.Graph.ClearGraph | include/graph/graph.hpp:353-360 | no vertices remain |
| Graphs.Graph.SetOptimalPath | include/graph/graph.hpp:310-313 | the stored optimal path becomes the argument, and the getter returns it |
| Graphs.Graph.SetAStarPath | include/graph/graph.hpp:316-319 | the stored A* path becomes the argument, and the getter returns it |
| Graphs.Graph.SetDijkstraPath | include/graph/graph.hpp:322-325 | the stored Dijkstra path becomes the argument, and the getter returns it |
| Graphs.Graph.DfsRecursive | include/graph/graph.hpp:328-340 | marks only grow; every vertex it marks is reachable from the start, and every vertex one move from a newly marked vertex ends up marked |
| Graphs.Graph.DepthFirstSearch | include/graph/graph.hpp:343-350 | afterwards a vertex is marked exactly when it is reachable from the start |
| Graphs.Graph.MarksAreReachable | include/graph/graph.hpp:343-350 | a search that started with no vertex marked leaves marked exactly the vertices reachable from its start |
| Reach.ClosedSetHoldsReachable | include/graph/graph.hpp:328-340 | a set that holds the start and is closed under moves holds every reachable vertex |
| Reach.OwnedEdgesStepForward | include/graph/graph.hpp:334 | when edges are stored at their source, the search's move over an edge is a step from the edge's source to its destination |
| Graphs.Graph.AreVerticesConnected | include/graph/graph.hpp:274-289 | true exactly when the second vertex is reachable from the first; all marks are false afterwards |
| Graphs.Graph.IsConnected | include/graph/graph.hpp:251-271 | true on an empty graph, whose marks are unchanged; otherwise true exactly when every vertex is reachable from the vertex the map yields first, and afterwards exactly the vertices reachable from it are marked |
| Graphs.IsConnectedDependsOnFirst | include/graph/graph.hpp:251-271 | for the two-vertex graph with the single edge 0 -> 1, every vertex is reachable from 0 but 0 is not reachable from 1, so the answer depends on which vertex the map yields first |
| Graphs.Graph.GetBounds | include/graph/graph.hpp:104-134 | all zero when the graph is empty; otherwise the box contains every vertex and each of its four sides touches some vertex |
| Graphs.Graph.GetPathEdges | include/graph/graph.hpp:188-199 | for each consecutive pair of the path in turn, the edges of the first vertex that lead to the second, in list order |
| Graphs.PathEdgesMembership | include/graph/graph.hpp:188-199 | an edge is among the path edges exactly when it belongs to a vertex of the path and leads to the next position |
| Graphs.MatchingMembers | include/graph/graph.hpp:192-195 | the edges kept for one pair are exactly the vertex's edges that lead to the next position |
| Graphs.PathEdgesSplit | include/graph/graph.hpp:188-199 | the edges of two joined paths are the edges of the first followed by those of the second |
| Graphs.Graph.GetPathEdgeElements | include/graph/graph.hpp:174-185 | one descriptor `(path[i], path[i+1], cost)` per edge that `get_path_edges` returns; on a graph whose edges are stored at their source, these are those very edges |
| Graphs.PathElementsOwned | include/graph/graph.hpp:174-185 | on a graph whose edges are stored at their source, the descriptors equal the path edges |
| Graphs.Graph.GetPathCost | include/graph/graph.hpp:220-228 | the sum of the costs of the path edges |
| Graphs.PathCostSplit | include/graph/graph.hpp:220-228 | the cost of two joined paths is the sum of their costs |
| Graphs.SumCostsAppend | include/graph/graph.hpp:224-226 | the sum over a concatenation is the sum of the sums |
| Graphs.Graph.CreateVertices | include/graph/graph.hpp:439-449 | adds a vertex for every descriptor's position; existing vertices are kept, and among new descriptors for one position the first one wins |
| Graphs.FirstWithAppend | include/graph/graph.hpp:439-449 | appending a descriptor leaves the first descriptor for a position already present unchanged, and for a new position it is the appended descriptor |
| Graphs.Graph.CreateEdges | include/graph/graph.hpp:452-464 | each descriptor is appended, in order, to the edges of its source; no vertex is added or dropped |
| Graphs.ArcsFromMembers | include/graph/graph.hpp:452-464 | the edges a vertex gains are exactly the descriptors that start at it |
| Graphs.Graph.CreateMesh | include/graph/graph.hpp:414-418 | new vertices as `create_vertices` makes them; every vertex, old or new, gains the descriptors that start at it |
| Graphs.MeshOfShape | include/graph/graph.hpp:414-418 | the built mesh has one vertex per named position and stores every edge at its source; when every descriptor joins named positions, every edge lands on a vertex |
| Graphs.Graph.CreateMeshFromMap | include/graph/graph.hpp:407-411 | the given vertices with the descriptors appended to the edges of their sources |
| Graphs.Graph.CreateMeshFromElements | include/graph/graph.hpp:363-404 | the graph is the mesh of the elements' endpoints (each first occurrence gives the coordinates) and of their edges in order; every edge is stored at its source and lands on a vertex |
| Graphs.BuiltMesh | include/graph/graph.hpp:366-403 | building element by element gives the declarative mesh of all endpoints and edges |
| Graphs.MeshStep | include/graph/graph.hpp:376-402 | one more element adds its missing endpoints and appends its edge to its source |
| Dijkstra.Solve | include/algorithm/dijkstra.hpp:12-67 | `[start]` when the end is the start or `UINT_MAX`; for a reachable vertex, the positions of a shortest route over traversable edges; for an unreachable vertex, `[start, end]`; for an end that is not a vertex, the path found for 0 followed by the end, which is `[start, 0, end]` when 0 is unreachable |
| Dijkstra.ComputeDijkstra | include/algorithm/dijkstra.hpp:12-67 | the graph's Dijkstra path is set to the path described for `Dijkstra.Solve` |
| Dijkstra.Seed | include/algorithm/dijkstra.hpp:20-30 | every vertex has cost 0 if it is the start and infinity otherwise, and no predecessor; the queue holds one entry per vertex at its cost, then `(0, start)` once more; this state satisfies the loop invariant with nothing settled |
| Dijkstra.Fill | include/algorithm/dijkstra.hpp:20-26 | every vertex, and nothing else, gets cost 0 if it is the start and infinity otherwise and predecessor `UINT_MAX`; the queue holds exactly one entry per vertex, at its cost |
| Dijkstra.SeedPush | include/algorithm/dijkstra.hpp:28-30 | setting the start's cost to 0 again changes nothing, and pushing `(0, start)` after the per-vertex entries gives the seeded state that satisfies the loop invariant |
| Dijkstra.Seeded | include/algorithm/dijkstra.hpp:20-30 | the seeded state satisfies the loop invariant, with nothing settled |
| Dijkstra.PopKeepsOrder | include/algorithm/dijkstra.hpp:34-35 | the popped key is not below the last one or above any key left; a vertex not settled yet is popped with its current cost; every waiting vertex keeps an entry |
| Dijkstra.Popped | include/algorithm/dijkstra.hpp:32-36 | popping the least entry keeps the invariant; a vertex popped again is already relaxed |
| Dijkstra.Relax | include/algorithm/dijkstra.hpp:38-54 | after the inner loop the invariant holds with every settled vertex relaxed, so no traversable edge of the popped vertex can lower a cost; for a vertex popped again the queue is unchanged |
| Dijkstra.RelaxEdge | include/algorithm/dijkstra.hpp:40-53 | one more edge relaxed; the popped vertex keeps its cost and the invariant holds |
| Dijkstra.Improve | include/algorithm/dijkstra.hpp:48-53 | lowering a head's cost through an edge of the settling vertex keeps the invariant: the head is not settled, and its predecessor and witness route come from that edge |
| Dijkstra.StartNotLowered | include/algorithm/dijkstra.hpp:48 | with non-negative costs no edge lowers the start's cost of zero |
| Dijkstra.Settled | include/algorithm/dijkstra.hpp:32-55 | once the queue is empty, every vertex is settled, no route from the start undercuts a cost, and every finite cost is reached |
| Dijkstra.Walk | include/algorithm/dijkstra.hpp:57-66 | over final costs, the reversed predecessor walk is the path described for `Dijkstra.Solve`, including the default predecessor 0 inserted for an end that is not a vertex |
| Dijkstra.WalkBack | include/algorithm/dijkstra.hpp:59-63 | one step back from a vertex goes to its predecessor, settled earlier, along the edge that set its cost, and the walk stays on a route to the end or to 0 |
| Dijkstra.WalkAstray | include/algorithm/dijkstra.hpp:59-63 | from an end that is not a vertex, the lookup finds no entry and inserts 0, and the walk goes on from 0 |
| Dijkstra.WalkEnd | include/algorithm/dijkstra.hpp:59-66 | where the walk stops, the reversed positions are the path described for `Dijkstra.Solve` |
| Dijkstra.WalkEndAstray | include/algorithm/dijkstra.hpp:59-66 | for an end that is not a vertex, the path is a shortest path to 0 followed by the end, or `[start, 0, end]` when 0 is unreachable |
| Dijkstra.WalkStep | include/algorithm/dijkstra.hpp:59-63 | each step back goes to a vertex settled earlier and stays on a route to the end |
| Dijkstra.WalkDone | include/algorithm/dijkstra.hpp:59-65 | the walk stops at the start for a reachable end, giving a shortest route, and at once otherwise |
| Routes.RelaxedBound | include/algorithm/dijkstra.hpp:46-53 | costs that no traversable edge can lower are lower bounds on the cost of every route |
| Routes.MinIndex | include/algorithm/dijkstra.hpp:18 | the popped entry is in the queue and no entry is below it in pair order |
| Routes.RemoveAt | include/algorithm/dijkstra.hpp:35 | popping removes exactly one copy of the popped entry |
| AStar.Solve | include/algorithm/astar.hpp:14-71 | when the goal is not a vertex, the path is empty; when the goal is the start, the path is `[start]`; when it is reachable, the path holds the positions of a route from the start; otherwise the path is `[start]` |
| AStar.ComputeAStar | include/algorithm/astar.hpp:14-71 | the graph's A* path is set to the path described for `AStar.Solve` |
| AStar.Search | include/algorithm/astar.hpp:32-71 | from any state satisfying the loop invariant with nothing linked, the path is the one described for `AStar.Solve` |
| AStar.Seed | include/algorithm/astar.hpp:24-30 | every vertex has g-score 0 and f-score `h(start, goal)` if it is the start, and infinity for both otherwise; the open set holds exactly one entry per vertex, at its f-score; this state satisfies the loop invariant, and the goal waits in the open set |
| AStar.Seeded | include/algorithm/astar.hpp:24-30 | the initial scores and open set satisfy the loop invariant with nothing linked, and the goal, when it is a vertex, waits in the open set |
| AStar.Popped | include/algorithm/astar.hpp:33-36 | the popped position is a vertex and the invariant holds; the goal still waits unless it was popped |
| AStar.Expand | include/algorithm/astar.hpp:46-67 | after the edge loop the invariant holds again, and the set of g-scores still possible shrinks or nothing changes |
| AStar.RelaxEdge | include/algorithm/astar.hpp:48-66 | one more edge relaxed; the invariant holds and the set of g-scores still possible shrinks or nothing changes |
| AStar.Improve | include/algorithm/astar.hpp:58-66 | lowering a g-score through an edge keeps the invariant and shrinks the set of g-scores still possible |
| AStar.PendingShrinks | include/algorithm/astar.hpp:58-61 | lowering a g-score to a route cost removes a pair from the finite set of g-scores still possible |
| AStar.Finish | include/algorithm/astar.hpp:38-44 | on popping the goal, the path is the positions of a route when the goal is reachable, `[start]` when the goal is the start, and `[start]` otherwise |
| AStar.Unreached | include/algorithm/astar.hpp:38-44 | a goal popped with an infinite g-score is not reachable |
| AStar.ReconstructAStarPath | include/algorithm/astar.hpp:73-84 | empty when the position has no predecessor; otherwise a predecessor chain, oldest first, ending at the position |
| AStar.ChainIsRoute | include/algorithm/astar.hpp:73-84 | a predecessor chain whose links are edges, starting from the start, is a route whose positions are the start followed by the chain |
| AStar.RanksFall | include/algorithm/astar.hpp:60 | the rank falls along every predecessor link, so the walk back ends |
| PathCost.Cheapest | include/graph/graph.hpp:192-195 | the cheapest traversable edge to a destination, if any: it leads there, is traversable and costs no more than any other such edge |
| PathCost.CheapestBelow | include/graph/graph.hpp:220-228 | the intended path cost is finite and no more than the cost of any route over the same positions |
| PathCost.CheapestAttained | include/graph/graph.hpp:220-228 | some route over the positions costs exactly the intended path cost |
| PathCost.ShortestPathCost | include/graph/graph.hpp:220-228 | for a shortest route, such as Dijkstra's, the intended path cost equals the route's cost |
| PathCost.ParallelEdgesCounted | include/graph/graph.hpp:220-228 | two parallel edges 0 -> 1 of costs 5 and 1 make `get_path_cost([0, 1])` 6, where the cheapest edge costs 1 |
| PathCost.SentinelEdgeCounted | include/graph/graph.hpp:220-228 | an untraversable edge 0 -> 1 beside one of cost 2 makes `get_path_cost([0, 1])` 1 |
| Reader.GraphFileReader.constructor | include/parser/reader.hpp:39-48 | the reader holds the whole file read: start and end, the vertex section, and the edges |
| Reader.GraphFileReader.ReadStartEnd | include/parser/reader.hpp:51-66 | consumes lines up to and including the first one that is not skipped, and reads start and end from it; unchanged when there is none |
| Reader.GraphFileReader.ReadVertices | include/parser/reader.hpp:69-88 | reads the vertex section as `VertexScan` describes it; the cursor ends after it |
| Reader.VertexSectionRecords | include/parser/reader.hpp:69-88 | the vertices read are the lines of the section that are neither empty nor comments, each read, in order |
| Reader.VertexSectionEnd | include/parser/reader.hpp:74-77 | the section ends at the end of the file or just after an empty line, and only once a vertex has been read |
| Reader.VertexSectionFirstStop | include/parser/reader.hpp:74-81 | inside the section, an empty line is passed over only while no vertex has been read |
| Reader.GraphFileReader.ReadEdges | include/parser/reader.hpp:91-106 | every remaining line that is not skipped is read as an edge, in order; the cursor ends at the end of the file |
| Reader.ParsedLines | include/parser/reader.hpp:94-105 | one record per line that is not skipped, each that line read, in order |
| Reader.FirstData | include/parser/reader.hpp:54-59 | the first line at or after the cursor that is not skipped, every line before it being skipped |
| Reader.GraphFileReader.GetStartEnd | include/parser/reader.hpp:109-112 | the start and end stored by reading; after construction, those of the file |
| Reader.GraphFileReader.GetVertices | include/parser/reader.hpp:115-118 | the vertex records stored by reading; after construction, those of the file in order |
| Reader.GraphFileReader.GetEdges | include/parser/reader.hpp:121-124 | the edge records stored by reading; after construction, those of the file in order |
| Writer.GraphFileWriter.constructor | include/parser/writer.hpp:30-37 | an empty file |
| Writer.GraphFileWriter.WriteStartEnd | include/parser/writer.hpp:40-47 | appends the header, the line `start end` and a blank line |
| Writer.GraphFileWriter.WriteVertices | include/parser/writer.hpp:50-60 | appends the header, one line per vertex (position and both coordinates converted to unsigned) in order, and a blank line |
| Writer.GraphFileWriter.WriteEdges | include/parser/writer.hpp:63-74 | appends the named header, one line per edge (both endpoints converted to `int`, and the cost) in order, and a blank line |
| Writer.GraphFileWriter.WriteCostDistance | include/parser/writer.hpp:77-82 | appends the header, the line `cost distance` and a blank line |
| Files.RoundTrip | include/parser/reader.hpp:39-48 | writing start and end, at least one vertex and the edges, then reading the file, gives back start and end, the vertices with coordinates truncated to integers, and the edges |
| Files.RoundTripIntegral | include/parser/reader.hpp:39-48 | with integral coordinates the vertices read back unchanged |
| Files.StartEndRead | include/parser/reader.hpp:51-66 | the start and end line of a written file is its first line that is not skipped, and it reads back as start and end |
| Files.WrittenVertices | include/parser/reader.hpp:69-88 | a written vertex section with at least one vertex reads back as its lines read, and ends at the blank line after them |
| Files.WrittenEdges | include/parser/reader.hpp:91-106 | a written edge section reads back as the edges |
| Files.VertexLineRead | include/parser/writer.hpp:57 | a vertex line reads back as the vertex with truncated coordinates |
| Files.EdgeLineRead | include/parser/writer.hpp:71 | an edge line reads back as the edge, even when an endpoint was printed negative |
| Files.EmptyVertexSection | include/parser/reader.hpp:74-81 | with no vertices, the blank line after the vertex header does not end the section: every edge line is read as a vertex at the edge's source, and no edge is read |
| Text.TokensJoin | include/parser/reader.hpp:84-85 | fields joined by single spaces split back into the same fields |
| Text.Tokens | include/parser/reader.hpp:84-85 | every field of a line is non-empty and holds no white space |
| Text.DigitsValueOf | include/parser/writer.hpp:45 | the decimal digits of a number read back as that number |
| Text.ParseUnsigned | include/parser/reader.hpp:62 | the value read into an `unsigned int` is never above `UINT_MAX` |
| Text.UnsignedRoundTrip | include/parser/reader.hpp:62 | an unsigned integer printed in decimal reads back as itself |
| Text.NegativeRoundTrip | include/parser/reader.hpp:103 | a negative number printed in decimal reads back as an unsigned integer modulo 2^32 |
| Text.Int32RoundTrip | include/parser/writer.hpp:69-71 | a position converted to `int` and printed reads back as the same unsigned position |
| Text.ToInt32 | include/parser/writer.hpp:69-70 | the `int` is in range and congruent to the unsigned value modulo 2^32 |
| Text.Truncate | include/parser/writer.hpp:55-56 | conversion towards zero: the integer part of a non-negative coordinate, 0 for one in (-1, 0) |

## Left out

- `get_distance`, `get_path_distance`, `get_heuristic` and `Edge::get_length` use CGAL squared distance and `sqrt` on `double`; floating point is not modelled. A* takes the heuristic as a parameter `h` of two positions.
- `print_graph`, `print_coordinates`, `to_string` and the other printing helpers are console output.
- `add_visited`, `clear_visited` and `get_visited` are left out. The search reads and writes the `visited` map directly.
- `Vertex_Compare` is left out; it only orders vertices for display.
- Pointers and aliasing are left out. A graph vertex is a value keyed by its position, and an edge names its endpoints by position. `Vertices.Vertex` objects and the graph's vertices are separate, and memory release in `clear_graph` is not modelled.
- The file stream is the sequence of its lines, and opening errors are not modelled. `>>` of a `double` and `<<` of a `double` are the parameters `parse` and `show`. In the model, a field that is missing or not a number reads as 0. In the source, a present field with no leading number is stored as 0 (since C++11) and sets the stream's failbit. A missing field is not stored at all: it stays indeterminate, as do all fields after a failure, since they are uninitialised locals (include/parser/reader.hpp:60, 82-83, 100-101). For the start/end line `7`, the source leaves `end` indeterminate, but `Reader.StartEndOf` reads (7, 0). The model reads the later fields as if nothing had failed.
- Text.ParseUnsigned: reads each whitespace-separated field as a whole, and a field that is not entirely a number gives 0. `>>` instead reads the longest numeric prefix, so `3.0` or `12abc` in an unsigned field reads as 3 or 12, and the rest of the field is what the next extraction reads. For the start/end line `3.0 7`, the unsigned `end` fails on `.0`, so the source reads (3, 0), but `Reader.StartEndOf` reads (0, 7). For the vertex line `3.0 1 2`, the `double` x reads `.0` as 0.0 and y reads 1 (include/parser/reader.hpp:82-83), so the source reads (3, 0.0, 1.0), but `Reader.VertexOf` reads (0, 1.0, 2.0) when `parse` reads `1` and `2` as those numbers. Fields that are whole decimal integers are read the same way by both.
- AStar.Solve: does not state that the path is a shortest route, although the source calls it the optimal path. The model takes the heuristic as an arbitrary parameter `h`. A\* is optimal only under an admissible heuristic, and the Euclidean distance of `get_heuristic` is admissible only when no edge costs less than the distance between its endpoints. The random costs 0 to 9 of `app/random_graph_generator.cpp` do not ensure that.
- AStar.ComputeAStar: does not state that the stored path is a shortest route, for the reason given on the first `AStar.Solve` line.
- AStar.Finish: does not state that the path it reconstructs is a shortest route, for the reason given on the first `AStar.Solve` line.
- AStar.Solve: requires that the goal is a vertex whenever the start is, and that stored edges lead to vertices. `get_heuristic` dereferences both vertices, and a missing one is a null pointer.
- Dijkstra.Solve: requires the start to be a vertex, every position below `UINT_MAX`, every stored edge to lead to a vertex, and non-negative traversable costs. Otherwise popping the start dereferences a null vertex, a position equal to `UINT_MAX` is confused with "no predecessor", and negative costs void the algorithm.
- Dijkstra.Solve: also requires 0 to be a vertex when the end is neither a vertex nor `UINT_MAX`. Otherwise the lookups of `previous` at the end and at 0 both insert 0, and the walk back never ends. The same holds for `Dijkstra.ComputeDijkstra` and `Dijkstra.Walk`.
- Graphs.Graph.IsConnected: the vertex the unordered map yields first is returned as a ghost `root`. The model does not say which vertex that is.
- Graphs.Graph.GetPathEdges: requires a non-empty path whose positions, except the last, are vertices. On an empty path `path.size() - 1` wraps around and the loop reads past the end. A missing position is a null vertex. The same holds for `GetPathEdgeElements` and `GetPathCost`.
- Graphs.Graph.DfsRecursive: requires every edge endpoint to be a vertex and the start to be unmarked, as every caller ensures. A search from a position that is not a vertex dereferences a null pointer.
- Graphs.Graph.CreateEdges: requires both endpoints of every descriptor to be vertices, because the model has no null vertex. In the source, a missing source is inserted as a null entry and dereferenced at once. A missing destination is inserted as a null entry too, and the edge gets a null destination; the solvers and the search dereference it later. The same holds for `CreateMesh`, `CreateMeshFromMap` and `FromElements`.
- Writer.GraphFileWriter.WriteVertices: requires every position to fit in `unsigned int` and every coordinate to convert to `unsigned int` (in range after truncation). Out-of-range conversions are undefined in C++.
- Files.RoundTrip: requires at least one vertex. With none, the blank line after the vertex header does not end the vertex section, as `Files.EmptyVertexSection` shows.

## Findings

| source | as written | input that shows it | evidently intended | confidence | as-written member | corrected member |
|---|---|---|---|---|---|---|
| include/graph/graph.hpp:220-228 | `get_path_cost` adds up every edge from each position to the next. Parallel edges are all counted, and so is an untraversable edge's `-1`. | Edges 0 -> 1 of costs 5 and 1 give 6 for the path `[0, 1]`. An untraversable edge 0 -> 1 beside one of cost 2 gives 1. | The cost of the route the solver found: the cheapest traversable edge between each pair of consecutive positions. | not executed | PathCost.ParallelEdgesCounted | PathCost.ShortestPathCost |
