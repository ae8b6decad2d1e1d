/** The `Graph` object: a map from position to vertex, three stored result
    paths and the `visited` marks of its depth-first search. Vertices live
    in the map as `Node` values whose edges name their endpoints by
    position. */
module Graphs {
  import opened Records
  import opened Reach

  // ---------------------------------------------------------------------
  // Specification functions for the mesh builders

  /** The positions named by a list of vertex descriptors. */
  function PositionsOf(vs: seq<VertexElem>): set<nat>
  {
    set e | e in vs :: e.position
  }

  /** The first descriptor in the list with position `p`. */
  function FirstWith(vs: seq<VertexElem>, p: nat): (r: VertexElem)
    requires p in PositionsOf(vs)
    ensures r in vs && r.position == p
  {
    if vs[0].position == p then vs[0]
    else
      assert p in PositionsOf(vs[1..]) by {
        var e :| e in vs && e.position == p;
        assert e in vs[1..];
      }
      FirstWith(vs[1..], p)
  }

  /** Appending descriptors does not change the first one for a position
      that already occurs; for a new position it is the first appended
      descriptor that has it. */
  lemma {:induction false} FirstWithAppend(vs: seq<VertexElem>, e: VertexElem, p: nat)
    requires p in PositionsOf(vs + [e])
    ensures p in PositionsOf(vs) ==> FirstWith(vs + [e], p) == FirstWith(vs, p)
    ensures p !in PositionsOf(vs) ==> FirstWith(vs + [e], p) == e
  {
    if vs == [] {
      assert vs + [e] == [e];
    } else {
      assert (vs + [e])[1..] == vs[1..] + [e];
      if vs[0].position != p {
        if p in PositionsOf(vs) {
          var d :| d in vs && d.position == p;
          assert d in vs[1..];
        }
        if p in PositionsOf(vs[1..]) {
          var d :| d in vs[1..] && d.position == p;
          assert d in vs;
        }
        FirstWithAppend(vs[1..], e, p);
      }
    }
  }

  /** The vertex a descriptor stands for, without edges. */
  function NodeOf(e: VertexElem): Node
  {
    Node(e.position, e.x, e.y, [])
  }

  /** The edge descriptors of `es` that start at `p`, in order. */
  function ArcsFrom(es: seq<EdgeElem>, p: nat): seq<EdgeElem>
  {
    if es == [] then []
    else ArcsFrom(es[..|es| - 1], p) + (if es[|es| - 1].src == p then [es[|es| - 1]] else [])
  }

  /** `ArcsFrom` keeps exactly the descriptors that start at `p`. */
  lemma {:induction false} ArcsFromMembers(es: seq<EdgeElem>, p: nat)
    ensures forall e :: e in ArcsFrom(es, p) <==> e in es && e.src == p
  {
    if es != [] {
      var init := es[..|es| - 1];
      ArcsFromMembers(init, p);
      assert es == init + [es[|es| - 1]];
    }
  }

  /** The endpoints of the mesh elements, each element giving its source
      and then its destination. */
  function Endpoints(ms: seq<MeshElem>): (r: seq<VertexElem>)
    ensures |r| == 2 * |ms|
  {
    if ms == [] then []
    else Endpoints(ms[..|ms| - 1]) + [ms[|ms| - 1].src, ms[|ms| - 1].dst]
  }

  /** The edge each mesh element stands for. */
  function MeshArcs(ms: seq<MeshElem>): (r: seq<EdgeElem>)
    ensures |r| == |ms|
  {
    if ms == [] then []
    else
      var m := ms[|ms| - 1];
      MeshArcs(ms[..|ms| - 1]) + [EdgeElem(m.src.position, m.dst.position, m.cost)]
  }

  /** The vertices a fresh graph holds after being built from the vertex
      descriptors `E` and then the edge descriptors `A`: one vertex per
      position, with the coordinates of its first descriptor and the edges
      that start at it, in order. */
  function MeshOf(E: seq<VertexElem>, A: seq<EdgeElem>): map<nat, Node>
  {
    map p | p in PositionsOf(E) :: NodeOf(FirstWith(E, p)).(edges := ArcsFrom(A, p))
  }

  /** Every edge descriptor of `A` joins two positions named in `E`. */
  predicate Anchored(E: seq<VertexElem>, A: seq<EdgeElem>)
  {
    forall k :: 0 <= k < |A| ==> A[k].src in PositionsOf(E) && A[k].dst in PositionsOf(E)
  }

  /** A built mesh has every edge stored at its source, and, when every
      edge descriptor joins named positions, every edge lands on a vertex. */
  lemma MeshOfShape(E: seq<VertexElem>, A: seq<EdgeElem>)
    ensures MeshOf(E, A).Keys == PositionsOf(E)
    ensures Owned(MeshOf(E, A))
    ensures Anchored(E, A) ==> Closed(MeshOf(E, A))
  {
    var m := MeshOf(E, A);
    forall u, j | u in m && 0 <= j < |m[u].edges| ensures m[u].edges[j].src == u {
      ArcsFromMembers(A, u);
      assert m[u].edges[j] in ArcsFrom(A, u);
    }
    if Anchored(E, A) {
      forall u, j | u in m && 0 <= j < |m[u].edges|
        ensures m[u].edges[j].src in m && m[u].edges[j].dst in m
      {
        ArcsFromMembers(A, u);
        assert m[u].edges[j] in ArcsFrom(A, u);
        var k :| 0 <= k < |A| && A[k] == m[u].edges[j];
      }
    }
  }

  /** The positions of a concatenation are those of its two parts. */
  lemma PositionsOfAppend(a: seq<VertexElem>, b: seq<VertexElem>)
    ensures PositionsOf(a + b) == PositionsOf(a) + PositionsOf(b)
  {
    forall p | p in PositionsOf(a + b) ensures p in PositionsOf(a) + PositionsOf(b) {
      var e :| e in a + b && e.position == p;
      assert e in a || e in b;
    }
    forall p | p in PositionsOf(a) + PositionsOf(b) ensures p in PositionsOf(a + b) {
      if p in PositionsOf(a) {
        var e :| e in a && e.position == p;
        assert e in a + b;
      } else {
        var e :| e in b && e.position == p;
        assert e in a + b;
      }
    }
  }

  /** Adding a vertex descriptor to a mesh whose arcs start at named
      positions: a new position gets a vertex without edges, a known one
      changes nothing. */
  lemma MeshOfAddVertex(E: seq<VertexElem>, A: seq<EdgeElem>, e: VertexElem)
    requires forall k :: 0 <= k < |A| ==> A[k].src in PositionsOf(E)
    ensures e.position in PositionsOf(E) ==> MeshOf(E + [e], A) == MeshOf(E, A)
    ensures e.position !in PositionsOf(E) ==> MeshOf(E + [e], A) == MeshOf(E, A)[e.position := NodeOf(e)]
  {
    PositionsOfAppend(E, [e]);
    assert PositionsOf([e]) == {e.position};
    forall p | p in PositionsOf(E + [e]) {
      FirstWithAppend(E, e, p);
    }
    if e.position !in PositionsOf(E) {
      ArcsFromNone(A, e.position);
    }
  }

  /** Adding an arc from a named position appends it to that vertex. */
  lemma MeshOfAddArc(E: seq<VertexElem>, A: seq<EdgeElem>, a: EdgeElem)
    requires a.src in PositionsOf(E)
    ensures MeshOf(E, A + [a]) ==
      MeshOf(E, A)[a.src := MeshOf(E, A)[a.src].(edges := MeshOf(E, A)[a.src].edges + [a])]
  {
    var before, after := MeshOf(E, A), MeshOf(E, A + [a]);
    var expected := before[a.src := before[a.src].(edges := before[a.src].edges + [a])];
    assert after.Keys == expected.Keys;
    forall p | p in after ensures after[p] == expected[p] {
      ArcsFromSnoc(A, a, p);
    }
  }

  /** No descriptor starts at `p`, so none is kept for it. */
  lemma {:induction false} ArcsFromNone(es: seq<EdgeElem>, p: nat)
    requires forall k :: 0 <= k < |es| ==> es[k].src != p
    ensures ArcsFrom(es, p) == []
  {
    if es != [] {
      ArcsFromNone(es[..|es| - 1], p);
    }
  }

  /** Extending a prefix of the descriptors by one adds that descriptor to
      the arcs of its own source only. */
  lemma ArcsFromPrefix(es: seq<EdgeElem>, i: nat, p: nat)
    requires i < |es|
    ensures ArcsFrom(es[..i + 1], p) == ArcsFrom(es[..i], p) + (if es[i].src == p then [es[i]] else [])
  {
    assert es[..i + 1] == es[..i] + [es[i]];
    ArcsFromSnoc(es[..i], es[i], p);
  }

  /** One more descriptor adds itself to the arcs of its own source only. */
  lemma ArcsFromSnoc(es: seq<EdgeElem>, e: EdgeElem, p: nat)
    ensures ArcsFrom(es + [e], p) == ArcsFrom(es, p) + (if e.src == p then [e] else [])
  {
    assert (es + [e])[..|es|] == es;
  }

  /** Extending a prefix of the mesh elements by one adds its two
      endpoints and its arc. */
  lemma MeshPrefix(ms: seq<MeshElem>, i: nat)
    requires i < |ms|
    ensures Endpoints(ms[..i + 1]) == Endpoints(ms[..i]) + [ms[i].src] + [ms[i].dst]
    ensures MeshArcs(ms[..i + 1]) == MeshArcs(ms[..i]) + [EdgeElem(ms[i].src.position, ms[i].dst.position, ms[i].cost)]
  {
    assert ms[..i + 1][..i] == ms[..i];
  }

  /** What `create_mesh_from_elements` does with one element: create each
      endpoint not present yet, then append the edge to its source. */
  function AddMeshElem(vs: map<nat, Node>, m: MeshElem): map<nat, Node>
  {
    var a := if m.src.position in vs then vs else vs[m.src.position := NodeOf(m.src)];
    var b := if m.dst.position in a then a else a[m.dst.position := NodeOf(m.dst)];
    b[m.src.position := b[m.src.position].(edges := b[m.src.position].edges + [EdgeElem(m.src.position, m.dst.position, m.cost)])]
  }

  /** Building from one more element takes the mesh of the prefix one
      step further. */
  lemma MeshStep(ms: seq<MeshElem>, i: nat)
    requires i < |ms|
    ensures MeshOf(Endpoints(ms[..i + 1]), MeshArcs(ms[..i + 1]))
      == AddMeshElem(MeshOf(Endpoints(ms[..i]), MeshArcs(ms[..i])), ms[i])
  {
    var m := ms[i];
    var E, A := Endpoints(ms[..i]), MeshArcs(ms[..i]);
    MeshPrefix(ms, i);
    MeshArcsAnchored(ms[..i]);
    AddEndpoint(E, A, m.src);
    AddEndpoint(E + [m.src], A, m.dst);
    MeshOfAddArc(E + [m.src] + [m.dst], A, EdgeElem(m.src.position, m.dst.position, m.cost));
  }

  /** One more endpoint creates its vertex when its position is new, and
      keeps every position named so far. */
  lemma AddEndpoint(E: seq<VertexElem>, A: seq<EdgeElem>, e: VertexElem)
    requires forall k :: 0 <= k < |A| ==> A[k].src in PositionsOf(E)
    ensures PositionsOf(E + [e]) == PositionsOf(E) + {e.position}
    ensures var M := MeshOf(E, A);
      MeshOf(E + [e], A) == if e.position in M then M else M[e.position := NodeOf(e)]
  {
    MeshKeys(E, A);
    MeshOfAddVertex(E, A, e);
    PositionsOfAppend(E, [e]);
    assert PositionsOf([e]) == {e.position};
  }

  /** A built mesh has one vertex per named position. */
  lemma MeshKeys(E: seq<VertexElem>, A: seq<EdgeElem>)
    ensures MeshOf(E, A).Keys == PositionsOf(E)
  {
  }

  /** The vertices after taking the elements one by one from an empty
      graph. */
  function Built(ms: seq<MeshElem>): map<nat, Node>
  {
    if ms == [] then map[] else AddMeshElem(Built(ms[..|ms| - 1]), ms[|ms| - 1])
  }

  /** Taking the elements one by one builds the mesh of their endpoints
      and arcs. */
  lemma {:induction false} BuiltMesh(ms: seq<MeshElem>)
    ensures Built(ms) == MeshOf(Endpoints(ms), MeshArcs(ms))
  {
    if ms == [] {
      assert PositionsOf([]) == {};
    } else {
      var i := |ms| - 1;
      BuiltMesh(ms[..i]);
      MeshStep(ms, i);
      assert ms[..i + 1] == ms;
    }
  }

  /** The mesh elements' arcs join positions among their endpoints. */
  lemma {:induction false} MeshArcsAnchored(ms: seq<MeshElem>)
    ensures Anchored(Endpoints(ms), MeshArcs(ms))
  {
    if ms != [] {
      var init, m := ms[..|ms| - 1], ms[|ms| - 1];
      MeshArcsAnchored(init);
      var E, A := Endpoints(ms), MeshArcs(ms);
      PositionsOfAppend(Endpoints(init), [m.src, m.dst]);
      assert m.src in [m.src, m.dst] && m.dst in [m.src, m.dst];
      forall k | 0 <= k < |A| ensures A[k].src in PositionsOf(E) && A[k].dst in PositionsOf(E) {
        if k < |A| - 1 {
          assert A[k] == MeshArcs(init)[k];
        }
      }
    }
  }

  // ---------------------------------------------------------------------
  // Specification functions for path queries

  /** The edges of `es` that lead to `d`, in list order. */
  function Matching(es: seq<EdgeElem>, d: nat): seq<EdgeElem>
  {
    if es == [] then []
    else Matching(es[..|es| - 1], d) + (if es[|es| - 1].dst == d then [es[|es| - 1]] else [])
  }

  /** `Matching` keeps exactly the edges of the list that lead to `d`. */
  lemma {:induction false} MatchingMembers(es: seq<EdgeElem>, d: nat)
    ensures forall e :: e in Matching(es, d) <==> e in es && e.dst == d
  {
    if es != [] {
      var init := es[..|es| - 1];
      MatchingMembers(init, d);
      assert es == init + [es[|es| - 1]];
    }
  }

  /** A non-empty path whose every position but the last is a vertex. */
  predicate OnGraph(vs: map<nat, Node>, path: seq<nat>)
  {
    |path| >= 1 && forall i :: 0 <= i < |path| - 1 ==> path[i] in vs
  }

  /** For each consecutive pair of the path, every edge of the first vertex
      whose destination is the second, in list order. */
  function PathEdges(vs: map<nat, Node>, path: seq<nat>): seq<EdgeElem>
    requires OnGraph(vs, path)
    decreases |path|
  {
    if |path| == 1 then []
    else
      var init := path[..|path| - 1];
      assert OnGraph(vs, init) by {
        assert forall i :: 0 <= i < |init| - 1 ==> init[i] == path[i];
      }
      PathEdges(vs, init) + Matching(vs[path[|path| - 2]].edges, path[|path| - 1])
  }

  /** The sum of the costs of a list of edges. */
  function SumCosts(es: seq<EdgeElem>): real
  {
    if es == [] then 0.0 else SumCosts(es[..|es| - 1]) + es[|es| - 1].cost
  }

  /** An edge is among the path edges exactly when it belongs to some
      vertex of the path and leads to the next one. */
  lemma {:induction false} PathEdgesMembership(vs: map<nat, Node>, path: seq<nat>, e: EdgeElem)
    requires OnGraph(vs, path)
    ensures e in PathEdges(vs, path) <==>
      exists i :: 0 <= i < |path| - 1 && e in vs[path[i]].edges && e.dst == path[i + 1]
    decreases |path|
  {
    if |path| > 1 {
      var init := path[..|path| - 1];
      assert OnGraph(vs, init) by {
        assert forall i :: 0 <= i < |init| - 1 ==> init[i] == path[i];
      }
      PathEdgesMembership(vs, init, e);
      MatchingMembers(vs[path[|path| - 2]].edges, path[|path| - 1]);
      assert forall i :: 0 <= i < |init| ==> init[i] == path[i];
      if e in PathEdges(vs, path) {
        if e !in PathEdges(vs, init) {
          assert e in vs[path[|path| - 2]].edges && e.dst == path[|path| - 1];
        }
      } else {
        forall i | 0 <= i < |path| - 1
          ensures !(e in vs[path[i]].edges && e.dst == path[i + 1])
        {
          if i < |path| - 2 {
            assert init[i] == path[i] && init[i + 1] == path[i + 1];
          }
        }
      }
    }
  }

  /** The last step of a path of two or more positions adds the edges of
      its second-to-last vertex that lead to its last. */
  lemma PathEdgesSnoc(vs: map<nat, Node>, path: seq<nat>)
    requires OnGraph(vs, path) && |path| >= 2
    ensures OnGraph(vs, path[..|path| - 1])
    ensures PathEdges(vs, path) ==
      PathEdges(vs, path[..|path| - 1]) + Matching(vs[path[|path| - 2]].edges, path[|path| - 1])
  {
  }

  /** Edges gathered over `p` and then over a continuation `q` of it are
      the edges of `p` followed by those of `q`. */
  lemma {:induction false} PathEdgesSplit(vs: map<nat, Node>, p: seq<nat>, q: seq<nat>)
    requires OnGraph(vs, p) && OnGraph(vs, q) && p[|p| - 1] == q[0]
    ensures OnGraph(vs, p + q[1..])
    ensures PathEdges(vs, p + q[1..]) == PathEdges(vs, p) + PathEdges(vs, q)
    decreases |q|
  {
    var pq := p + q[1..];
    assert OnGraph(vs, pq) by {
      forall i | 0 <= i < |pq| - 1 ensures pq[i] in vs {
        if i >= |p| { assert pq[i] == q[i - |p| + 1]; }
      }
    }
    if |q| == 1 {
      assert pq == p;
    } else {
      var q' := q[..|q| - 1];
      PathEdgesSnoc(vs, q);
      PathEdgesSplit(vs, p, q');
      PathEdgesSnoc(vs, pq);
      assert pq[..|pq| - 1] == p + q'[1..];
      assert pq[|pq| - 2] == q[|q| - 2];
    }
  }

  /** A path's cost is the sum of the costs of its pieces. */
  lemma PathCostSplit(vs: map<nat, Node>, p: seq<nat>, q: seq<nat>)
    requires OnGraph(vs, p) && OnGraph(vs, q) && p[|p| - 1] == q[0]
    ensures OnGraph(vs, p + q[1..])
    ensures SumCosts(PathEdges(vs, p + q[1..])) == SumCosts(PathEdges(vs, p)) + SumCosts(PathEdges(vs, q))
  {
    PathEdgesSplit(vs, p, q);
    SumCostsAppend(PathEdges(vs, p), PathEdges(vs, q));
  }

  /** The sum of a concatenation is the sum of the sums. */
  lemma {:induction false} SumCostsAppend(a: seq<EdgeElem>, b: seq<EdgeElem>)
    ensures SumCosts(a + b) == SumCosts(a) + SumCosts(b)
    decreases |b|
  {
    if b != [] {
      var b' := b[..|b| - 1];
      var ab := a + b;
      assert ab[..|ab| - 1] == a + b';
      assert ab[|ab| - 1] == b[|b| - 1];
      SumCostsAppend(a, b');
      calc {
        SumCosts(ab);
        SumCosts(ab[..|ab| - 1]) + ab[|ab| - 1].cost;
        SumCosts(a + b') + b[|b| - 1].cost;
        SumCosts(a) + SumCosts(b') + b[|b| - 1].cost;
        SumCosts(a) + SumCosts(b);
      }
    } else {
      assert a + b == a;
    }
  }

  /** One descriptor `(u, d, cost)` for each edge of `es` that leads to
      `d`, in list order. */
  function TaggedMatching(es: seq<EdgeElem>, u: nat, d: nat): seq<EdgeElem>
  {
    if es == [] then []
    else TaggedMatching(es[..|es| - 1], u, d) + (if es[|es| - 1].dst == d then [EdgeElem(u, d, es[|es| - 1].cost)] else [])
  }

  /** For each consecutive pair `(u, d)` of the path, one descriptor
      `(u, d, cost)` per edge of `u` that leads to `d`, in list order. */
  function PathElements(vs: map<nat, Node>, path: seq<nat>): seq<EdgeElem>
    requires OnGraph(vs, path)
    decreases |path|
  {
    if |path| == 1 then []
    else
      var init := path[..|path| - 1];
      assert OnGraph(vs, init) by {
        assert forall i :: 0 <= i < |init| - 1 ==> init[i] == path[i];
      }
      var u, d := path[|path| - 2], path[|path| - 1];
      PathElements(vs, init) + TaggedMatching(vs[u].edges, u, d)
  }

  /** The last step of a path of two or more positions adds the retagged
      edges of its second-to-last vertex that lead to its last. */
  lemma PathElementsSnoc(vs: map<nat, Node>, path: seq<nat>)
    requires OnGraph(vs, path) && |path| >= 2
    ensures OnGraph(vs, path[..|path| - 1])
    ensures var u, d := path[|path| - 2], path[|path| - 1];
      PathElements(vs, path) == PathElements(vs, path[..|path| - 1]) + TaggedMatching(vs[u].edges, u, d)
  {
  }

  /** One more edge of the list adds its retagged descriptor when it
      leads to `d`. */
  lemma TaggedMatchingSnoc(es: seq<EdgeElem>, j: nat, u: nat, d: nat)
    requires j < |es|
    ensures TaggedMatching(es[..j + 1], u, d)
      == TaggedMatching(es[..j], u, d) + (if es[j].dst == d then [EdgeElem(u, d, es[j].cost)] else [])
  {
    assert es[..j + 1][..j] == es[..j];
  }

  /** The descriptors of a path prefix one position longer. */
  lemma PathElementsPrefix(vs: map<nat, Node>, path: seq<nat>, i: nat)
    requires OnGraph(vs, path) && i + 1 < |path|
    ensures OnGraph(vs, path[..i + 1]) && OnGraph(vs, path[..i + 2])
    ensures PathElements(vs, path[..i + 2])
      == PathElements(vs, path[..i + 1]) + TaggedMatching(vs[path[i]].edges, path[i], path[i + 1])
  {
    var next := path[..i + 2];
    assert next[..|next| - 1] == path[..i + 1];
    PathElementsSnoc(vs, next);
  }

  /** Edges that start at `u` already read `(u, d, cost)` once `Matching`
      has kept only those leading to `d`. */
  lemma {:induction false} TaggedMatchingOwned(es: seq<EdgeElem>, u: nat, d: nat)
    requires forall k :: 0 <= k < |es| ==> es[k].src == u
    ensures TaggedMatching(es, u, d) == Matching(es, d)
  {
    if es != [] {
      TaggedMatchingOwned(es[..|es| - 1], u, d);
    }
  }

  /** On a graph whose edges start at the vertex that stores them, the
      descriptors of a path are its edges themselves. */
  lemma {:induction false} PathElementsOwned(vs: map<nat, Node>, path: seq<nat>)
    requires OnGraph(vs, path) && Owned(vs)
    ensures PathElements(vs, path) == PathEdges(vs, path)
    decreases |path|
  {
    if |path| > 1 {
      var init := path[..|path| - 1];
      PathEdgesSnoc(vs, path);
      PathElementsOwned(vs, init);
      var u := path[|path| - 2];
      TaggedMatchingOwned(vs[u].edges, u, path[|path| - 1]);
    }
  }

  /** Every stored edge starts at the vertex that stores it, as the mesh
      builders make it. */
  ghost predicate Owned(vs: map<nat, Node>)
  {
    forall u, j :: u in vs && 0 <= j < |vs[u].edges| ==> vs[u].edges[j].src == u
  }

  /** `visited` marks `u` and every vertex one move away from it. */
  ghost predicate Spread(vs: map<nat, Node>, visited: map<nat, bool>, u: nat)
  {
    forall w :: Step(vs, u, w) ==> w in visited && visited[w]
  }

  /** After the search from `n`, a move away from `v`, every vertex newly
      marked since `marked` is still reachable from `v` with its moves
      marked, and vertices outside the graph keep their marks. */
  lemma Visited(vs: map<nat, Node>, v: nat, n: nat, marked: map<nat, bool>, before: map<nat, bool>, after: map<nat, bool>)
    requires Step(vs, v, n)
    requires Grows(marked, before) && v in before && before[v]
    requires forall u :: u in before && u !in vs ==> before[u] == marked[u]
    requires forall u :: u in before && before[u] && !marked[u] && u != v ==> Reachable(vs, v, u) && Spread(vs, before, u)
    requires Grows(before, after) && n in after && after[n]
    requires forall u :: u in after && u !in vs ==> after[u] == before[u]
    requires forall u :: u in after && after[u] && !before[u] ==> Reachable(vs, n, u) && Spread(vs, after, u)
    ensures Grows(marked, after) && after[v]
    ensures forall u :: u in after && u !in vs ==> after[u] == marked[u]
    ensures forall u :: u in after && after[u] && !marked[u] && u != v ==> Reachable(vs, v, u) && Spread(vs, after, u)
  {
    forall u | u in after && after[u] && !marked[u] && u != v
      ensures Reachable(vs, v, u) && Spread(vs, after, u)
    {
      if !before[u] {
        ReachablePrepend(vs, v, n, u);
      }
    }
  }

  /** The far ends of the first `j` edges of `v` are marked. */
  ghost predicate NeighborsMarked(es: seq<EdgeElem>, v: nat, visited: map<nat, bool>, j: nat)
  {
    forall k :: 0 <= k < j && k < |es| ==> Neighbor(es[k], v) in visited && visited[Neighbor(es[k], v)]
  }

  /** Marks only grow, so marking the far end of edge `j` extends the
      marked neighbours by one. */
  lemma NeighborsStep(es: seq<EdgeElem>, v: nat, before: map<nat, bool>, after: map<nat, bool>, j: nat)
    requires j < |es| && NeighborsMarked(es, v, before, j) && Grows(before, after)
    requires Neighbor(es[j], v) in after && after[Neighbor(es[j], v)]
    ensures NeighborsMarked(es, v, after, j + 1)
  {
  }

  /** Once every neighbour of `v` is marked, `v` itself has its moves
      marked, and so has every vertex newly marked during its search. */
  lemma SearchDone(vs: map<nat, Node>, v: nat, marked: map<nat, bool>, visited: map<nat, bool>)
    requires v in vs && v in visited && visited[v] && marked.Keys == visited.Keys
    requires NeighborsMarked(vs[v].edges, v, visited, |vs[v].edges|)
    requires forall u :: u in visited && visited[u] && !marked[u] && u != v ==> Reachable(vs, v, u) && Spread(vs, visited, u)
    ensures forall u :: u in visited && visited[u] && !marked[u] ==> Reachable(vs, v, u) && Spread(vs, visited, u)
  {
    ReachableRefl(vs, v);
    forall w | Step(vs, v, w)
      ensures w in visited && visited[w]
    {
      var j :| 0 <= j < |vs[v].edges| && Neighbor(vs[v].edges[j], v) == w;
    }
  }

  /** From `before` to `after` no key is added or dropped and no mark is
      taken back. */
  ghost predicate Grows(before: map<nat, bool>, after: map<nat, bool>)
  {
    && after.Keys == before.Keys
    && forall u :: u in before && before[u] ==> after[u]
  }

  /** `after` is `before` with the descriptors `es` appended, in order, to
      the edges of their sources; no vertex is added or dropped. */
  ghost predicate EdgesAdded(before: map<nat, Node>, after: map<nat, Node>, es: seq<EdgeElem>)
  {
    && after.Keys == before.Keys
    && forall p :: p in after ==> after[p] == before[p].(edges := before[p].edges + ArcsFrom(es, p))
  }

  /** Appending descriptor `es[i]` to its source's edges extends the
      descriptors added so far by one. */
  lemma EdgesAddedStep(before: map<nat, Node>, cur: map<nat, Node>, es: seq<EdgeElem>, i: nat)
    requires i < |es| && es[i].src in cur
    requires EdgesAdded(before, cur, es[..i])
    ensures EdgesAdded(before, cur[es[i].src := cur[es[i].src].(edges := cur[es[i].src].edges + [es[i]])], es[..i + 1])
  {
    var e := es[i];
    var after := cur[e.src := cur[e.src].(edges := cur[e.src].edges + [e])];
    forall p | p in after
      ensures after[p] == before[p].(edges := before[p].edges + ArcsFrom(es[..i + 1], p))
    {
      ArcsFromPrefix(es, i, p);
      if p == e.src {
        var o := before[p].edges;
        assert (o + ArcsFrom(es[..i], p)) + [e] == o + (ArcsFrom(es[..i], p) + [e]);
      }
    }
  }

  /** The answer of `IsConnected` depends on which vertex the map yields
      first: with vertices 0 and 1 and the single edge 0 -> 1, every vertex
      is reachable from 0 but not from 1. */
  lemma IsConnectedDependsOnFirst()
    ensures var vs := map[0 := Node(0, 0.0, 0.0, [EdgeElem(0, 1, 1.0)]), 1 := Node(1, 0.0, 0.0, [])];
      Closed(vs) && Reachable(vs, 0, 1) && !Reachable(vs, 1, 0)
  {
    var vs := map[0 := Node(0, 0.0, 0.0, [EdgeElem(0, 1, 1.0)]), 1 := Node(1, 0.0, 0.0, [])];
    assert Neighbor(vs[0].edges[0], 0) == 1;
    assert IsWalk(vs, [0, 1]);
    ClosedSetHoldsReachableNot(vs);
  }

  /** From vertex 1 of that graph no move is possible. */
  lemma ClosedSetHoldsReachableNot(vs: map<nat, Node>)
    requires vs == map[0 := Node(0, 0.0, 0.0, [EdgeElem(0, 1, 1.0)]), 1 := Node(1, 0.0, 0.0, [])]
    ensures !Reachable(vs, 1, 0)
  {
    if Reachable(vs, 1, 0) {
      assert forall w :: !Step(vs, 1, w);
      ClosedSetHoldsReachable(vs, {1}, 1, 0);
    }
  }

  class Graph {
    var vertices: map<nat, Node>
    var visited: map<nat, bool>
    var astarPath: seq<nat>
    var dijkstraPath: seq<nat>
    var optimalPath: seq<nat>

    /** `Graph()`: no vertices, no marks, empty stored paths. */
    constructor ()
      ensures vertices == map[] && visited == map[]
      ensures astarPath == [] && dijkstraPath == [] && optimalPath == []
    {
      vertices, visited := map[], map[];
      astarPath, dijkstraPath, optimalPath := [], [], [];
    }

    /** `Graph(vertices)`: takes the given map as it is. */
    constructor FromMap(vs: map<nat, Node>)
      ensures vertices == vs && visited == map[]
      ensures astarPath == [] && dijkstraPath == [] && optimalPath == []
    {
      vertices, visited := vs, map[];
      astarPath, dijkstraPath, optimalPath := [], [], [];
    }

    /** No vertex at all: the count is zero and no position exists. */
    function IsEmpty(): (empty: bool)
      reads this
      ensures empty <==> NumVertices() == 0
      ensures empty ==> forall p :: !VertexExists(p)
    {
      |vertices| == 0
    }

    /** The number of vertices; zero exactly for an empty map. */
    function NumVertices(): (n: nat)
      reads this
      ensures n == 0 <==> vertices == map[]
    {
      |vertices|
    }

    /** A vertex is stored at `p`. */
    function VertexExists(p: nat): (found: bool)
      reads this
      ensures found <==> p in vertices.Keys
    {
      p in vertices
    }

    /** The vertex stored at `p`; the source inserts a null entry for a
        missing position, which no caller relies on. */
    function GetVertex(p: nat): (v: Node)
      reads this
      requires p in vertices
      ensures v == vertices[p]
    {
      vertices[p]
    }

    method SetVertices(vs: map<nat, Node>)
      modifies this`vertices
      ensures vertices == vs
    {
      vertices := vs;
    }

    /** Inserts the vertex under its own position unless that position is
        taken, in which case nothing changes. */
    method AddVertex(v: Node)
      modifies this`vertices
      ensures v.position in old(vertices) ==> vertices == old(vertices)
      ensures v.position !in old(vertices) ==> vertices == old(vertices)[v.position := v]
      ensures VertexExists(v.position)
    {
      if v.position !in vertices {
        vertices := vertices[v.position := v];
      }
    }

    method RemoveVertex(p: nat)
      modifies this`vertices
      ensures vertices == old(vertices) - {p}
      ensures !VertexExists(p)
      ensures forall q :: q != p ==> (q in vertices <==> q in old(vertices))
      ensures forall q :: q != p && q in vertices ==> vertices[q] == old(vertices)[q]
    {
      vertices := vertices - {p};
    }

    method ClearGraph()
      modifies this`vertices
      ensures vertices == map[] && IsEmpty()
    {
      vertices := map[];
    }

    method SetOptimalPath(path: seq<nat>)
      modifies this`optimalPath
      ensures optimalPath == path && GetOptimalPath() == path
    {
      optimalPath := path;
    }

    method SetAStarPath(path: seq<nat>)
      modifies this`astarPath
      ensures astarPath == path && GetAStarPath() == path
    {
      astarPath := path;
    }

    method SetDijkstraPath(path: seq<nat>)
      modifies this`dijkstraPath
      ensures dijkstraPath == path && GetDijkstraPath() == path
    {
      dijkstraPath := path;
    }

    /** The path stored last by `SetOptimalPath`. */
    function GetOptimalPath(): (path: seq<nat>)
      reads this
      ensures path == optimalPath
    {
      optimalPath
    }

    /** The path stored last by `SetAStarPath`. */
    function GetAStarPath(): (path: seq<nat>)
      reads this
      ensures path == astarPath
    {
      astarPath
    }

    /** The path stored last by `SetDijkstraPath`. */
    function GetDijkstraPath(): (path: seq<nat>)
      reads this
      ensures path == dijkstraPath
    {
      dijkstraPath
    }

    // -------------------------------------------------------------------
    // Depth-first search

    /** The vertices not marked yet. */
    ghost function Unvisited(): set<nat>
      reads this
    {
      set u | u in vertices && u in visited && !visited[u]
    }

    /** Marks every vertex reached from `v` that is not marked yet. A vertex
        marked by this call is reachable from `v`, and when the call returns
        every vertex one move away from it is marked too. */
    method DfsRecursive(v: nat)
      requires Closed(vertices) && vertices.Keys <= visited.Keys
      requires v in vertices && !visited[v]
      modifies this`visited
      decreases Unvisited()
      ensures Grows(old(visited), visited) && visited[v]
      ensures forall u :: u in visited && u !in vertices ==> visited[u] == old(visited[u])
      ensures forall u :: u in visited && visited[u] && !old(visited[u]) ==>
        Reachable(vertices, v, u) && Spread(vertices, visited, u)
    {
      ghost var marked := visited;
      visited := visited[v := true];
      var es := vertices[v].edges;
      for j := 0 to |es|
        invariant Grows(marked, visited) && visited[v]
        invariant forall u :: u in visited && u !in vertices ==> visited[u] == marked[u]
        invariant NeighborsMarked(es, v, visited, j)
        invariant forall u :: u in visited && visited[u] && !marked[u] && u != v ==>
          Reachable(vertices, v, u) && Spread(vertices, visited, u)
      {
        var n := Neighbor(es[j], v);
        assert Step(vertices, v, n);
        ghost var before := visited;
        if !visited[n] {
          assert Unvisited() < old(Unvisited()) by {
            assert v in old(Unvisited()) && v !in Unvisited();
          }
          DfsRecursive(n);
          Visited(vertices, v, n, marked, before, visited);
        }
        NeighborsStep(es, v, before, visited, j);
      }
      SearchDone(vertices, v, marked, visited);
    }

    /** Clears the marks of all vertices, then searches from `v`. */
    method DepthFirstSearch(v: nat)
      requires Closed(vertices) && v in vertices
      modifies this`visited
      ensures visited.Keys == old(visited.Keys) + vertices.Keys
      ensures forall u :: u in vertices ==> (visited[u] <==> Reachable(vertices, v, u))
    {
      ResetMarks();
      DfsRecursive(v);
      MarksAreReachable(v);
    }

    /** Sets the mark of every vertex to false; other keys stay. */
    method ResetMarks()
      modifies this`visited
      ensures visited == old(visited) + map u | u in vertices :: false
    {
      visited := visited + map u | u in vertices :: false;
    }

    /** After a search from `v` that started with every vertex unmarked,
        the marked vertices are exactly those reachable from `v`. */
    lemma MarksAreReachable(v: nat)
      requires Closed(vertices) && vertices.Keys <= visited.Keys && v in vertices
      requires forall u :: u in vertices && visited[u] ==>
        Reachable(vertices, v, u) && Spread(vertices, visited, u)
      requires visited[v]
      ensures forall u :: u in vertices ==> (visited[u] <==> Reachable(vertices, v, u))
    {
      var s := set u | u in vertices && visited[u];
      forall u, w | u in s && Step(vertices, u, w) ensures w in s {
        assert Spread(vertices, visited, u);
        var j :| 0 <= j < |vertices[u].edges| && Neighbor(vertices[u].edges[j], u) == w;
      }
      forall u | u in vertices && Reachable(vertices, v, u) ensures visited[u] {
        ClosedSetHoldsReachable(vertices, s, v, u);
      }
    }
  
    /** Searches from `a`, reads the mark of `b` and clears all marks again:
        the answer is whether `b` is reachable from `a`. */
    method AreVerticesConnected(a: nat, b: nat) returns (connected: bool)
      requires Closed(vertices) && a in vertices && b in vertices
      modifies this`visited
      ensures connected <==> Reachable(vertices, a, b)
      ensures visited.Keys == old(visited.Keys) + vertices.Keys
      ensures forall u :: u in vertices ==> !visited[u]
    {
      DepthFirstSearch(a);
      connected := visited[b];
      ResetMarks();
    }

    /** True on an empty graph; otherwise searches from the first entry of
        the map (`root`, which the map's iteration order picks) and answers
        whether every vertex was reached. */
    method IsConnected() returns (connected: bool, ghost root: nat)
      requires Closed(vertices)
      modifies this`visited
      ensures vertices == map[] ==> connected && visited == old(visited)
      ensures vertices != map[] ==>
        root in vertices && (connected <==> forall u :: u in vertices ==> Reachable(vertices, root, u))
      ensures vertices != map[] ==>
        && visited.Keys == old(visited.Keys) + vertices.Keys
        && forall u :: u in vertices ==> (visited[u] <==> Reachable(vertices, root, u))
    {
      if vertices == map[] {
        return true, 0;
      }
      var first :| first in vertices;
      root := first;
      DepthFirstSearch(first);
      ghost var marks := visited;
      var todo := vertices.Keys;
      while todo != {}
        invariant todo <= vertices.Keys && visited == marks
        invariant forall u :: u in vertices && u !in todo ==> visited[u]
      {
        var u :| u in todo;
        if !visited[u] {
          return false, root;
        }
        todo := todo - {u};
      }
      connected := true;
    }
  
    // -------------------------------------------------------------------
    // Bounding box

    /** `(min_x, min_y, width, height)` of the vertex coordinates, starting
        from the first entry of the map; `(0, 0, 0, 0)` when empty. */
    method GetBounds() returns (minX: real, minY: real, width: real, height: real)
      ensures vertices == map[] ==> minX == 0.0 && minY == 0.0 && width == 0.0 && height == 0.0
      ensures width >= 0.0 && height >= 0.0
      ensures forall u :: u in vertices ==>
        minX <= vertices[u].x <= minX + width && minY <= vertices[u].y <= minY + height
      ensures vertices != map[] ==>
        (exists u :: u in vertices && vertices[u].x == minX) &&
        (exists u :: u in vertices && vertices[u].x == minX + width) &&
        (exists u :: u in vertices && vertices[u].y == minY) &&
        (exists u :: u in vertices && vertices[u].y == minY + height)
    {
      if vertices == map[] {
        return 0.0, 0.0, 0.0, 0.0;
      }
      var first :| first in vertices;
      minX := vertices[first].x;
      var maxX := vertices[first].x;
      minY := vertices[first].y;
      var maxY := vertices[first].y;
      ghost var atMinX, atMaxX, atMinY, atMaxY := first, first, first, first;
      var todo := vertices.Keys;
      while todo != {}
        invariant todo <= vertices.Keys
        invariant minX <= maxX && minY <= maxY
        invariant forall u :: u in vertices && u !in todo ==>
          minX <= vertices[u].x <= maxX && minY <= vertices[u].y <= maxY
        invariant atMinX in vertices && vertices[atMinX].x == minX
        invariant atMaxX in vertices && vertices[atMaxX].x == maxX
        invariant atMinY in vertices && vertices[atMinY].y == minY
        invariant atMaxY in vertices && vertices[atMaxY].y == maxY
      {
        var u :| u in todo;
        var x, y := vertices[u].x, vertices[u].y;
        if x < minX {
          minX, atMinX := x, u;
        }
        if x > maxX {
          maxX, atMaxX := x, u;
        }
        if y < minY {
          minY, atMinY := y, u;
        }
        if y > maxY {
          maxY, atMaxY := y, u;
        }
        todo := todo - {u};
      }
      width := maxX - minX;
      height := maxY - minY;
    }
  
    // -------------------------------------------------------------------
    // Path queries

    /** Every edge of `path[i]` leading to `path[i + 1]`, for each `i` in
        turn, parallel and non-traversable edges included. */
    method GetPathEdges(path: seq<nat>) returns (r: seq<EdgeElem>)
      requires OnGraph(vertices, path)
      ensures r == PathEdges(vertices, path)
    {
      r := [];
      var i := 0;
      while i < |path| - 1
        invariant 0 <= i <= |path| - 1
        invariant OnGraph(vertices, path[..i + 1])
        invariant r == PathEdges(vertices, path[..i + 1])
      {
        var es := vertices[path[i]].edges;
        ghost var r0 := r;
        for j := 0 to |es|
          invariant r == r0 + Matching(es[..j], path[i + 1])
        {
          assert es[..j + 1][..j] == es[..j];
          if es[j].dst == path[i + 1] {
            r := r + [es[j]];
          }
        }
        assert es[..|es|] == es;
        var next := path[..i + 2];
        assert next[..|next| - 1] == path[..i + 1];
        assert OnGraph(vertices, next);
        PathEdgesSnoc(vertices, next);
        i := i + 1;
      }
      assert path[..|path|] == path;
    }

    /** The descriptors `(path[i], path[i + 1], cost)` of the same edges as
        `GetPathEdges`, in the same order. */
    method GetPathEdgeElements(path: seq<nat>) returns (r: seq<EdgeElem>)
      requires OnGraph(vertices, path)
      ensures r == PathElements(vertices, path)
      ensures Owned(vertices) ==> r == PathEdges(vertices, path)
    {
      r := [];
      var i := 0;
      while i < |path| - 1
        invariant 0 <= i <= |path| - 1
        invariant OnGraph(vertices, path[..i + 1])
        invariant r == PathElements(vertices, path[..i + 1])
      {
        var u, d := path[i], path[i + 1];
        var es := vertices[u].edges;
        ghost var r0 := r;
        for j := 0 to |es|
          invariant r == r0 + TaggedMatching(es[..j], u, d)
        {
          TaggedMatchingSnoc(es, j, u, d);
          if es[j].dst == d {
            r := r + [EdgeElem(u, d, es[j].cost)];
          }
        }
        assert es[..|es|] == es;
        PathElementsPrefix(vertices, path, i);
        i := i + 1;
      }
      assert path[..|path|] == path;
      if Owned(vertices) {
        PathElementsOwned(vertices, path);
      }
    }

    /** The sum of the costs of all path edges, as `GetPathEdges` returns
        them. */
    method GetPathCost(path: seq<nat>) returns (cost: real)
      requires OnGraph(vertices, path)
      ensures cost == SumCosts(PathEdges(vertices, path))
    {
      var es := GetPathEdges(path);
      cost := 0.0;
      for k := 0 to |es|
        invariant cost == SumCosts(es[..k])
      {
        assert es[..k + 1][..k] == es[..k];
        cost := cost + es[k].cost;
      }
      assert es[..|es|] == es;
    }
  
    // -------------------------------------------------------------------
    // Mesh builders

    /** Adds one vertex per descriptor, in order, without clearing first:
        a position already present keeps its vertex, and among new
        descriptors for the same position the first one wins. */
    method CreateVertices(elems: seq<VertexElem>)
      modifies this`vertices
      ensures vertices.Keys == old(vertices).Keys + PositionsOf(elems)
      ensures forall p :: p in old(vertices) ==> vertices[p] == old(vertices)[p]
      ensures forall p :: p in vertices && p !in old(vertices) ==> vertices[p] == NodeOf(FirstWith(elems, p))
    {
      for i := 0 to |elems|
        invariant vertices.Keys == old(vertices).Keys + PositionsOf(elems[..i])
        invariant forall p :: p in old(vertices) ==> vertices[p] == old(vertices)[p]
        invariant forall p :: p in vertices && p !in old(vertices) ==> vertices[p] == NodeOf(FirstWith(elems[..i], p))
      {
        var e := elems[i];
        assert elems[..i + 1] == elems[..i] + [e];
        PositionsOfAppend(elems[..i], [e]);
        assert PositionsOf([e]) == {e.position};
        forall p | p in PositionsOf(elems[..i + 1]) {
          FirstWithAppend(elems[..i], e, p);
        }
        AddVertex(NodeOf(e));
      }
      assert elems[..|elems|] == elems;
    }

    /** Appends one edge per descriptor, in order, to the edge list of the
        descriptor's source; both endpoints must be vertices. */
    method CreateEdges(elems: seq<EdgeElem>)
      requires forall k :: 0 <= k < |elems| ==> elems[k].src in vertices && elems[k].dst in vertices
      modifies this`vertices
      ensures EdgesAdded(old(vertices), vertices, elems)
    {
      for i := 0 to |elems|
        invariant EdgesAdded(old(vertices), vertices, elems[..i])
      {
        var e := elems[i];
        var v := vertices[e.src];
        EdgesAddedStep(old(vertices), vertices, elems, i);
        vertices := vertices[e.src := v.(edges := v.edges + [e])];
      }
      assert elems[..|elems|] == elems;
    }

    /** Creates the vertices, then the edges. */
    method CreateMesh(vElems: seq<VertexElem>, eElems: seq<EdgeElem>)
      requires forall k :: 0 <= k < |eElems| ==>
        eElems[k].src in vertices.Keys + PositionsOf(vElems) && eElems[k].dst in vertices.Keys + PositionsOf(vElems)
      modifies this`vertices
      ensures vertices.Keys == old(vertices).Keys + PositionsOf(vElems)
      ensures forall p :: p in old(vertices) ==>
        vertices[p] == old(vertices)[p].(edges := old(vertices)[p].edges + ArcsFrom(eElems, p))
      ensures forall p :: p in vertices && p !in old(vertices) ==>
        vertices[p] == NodeOf(FirstWith(vElems, p)).(edges := ArcsFrom(eElems, p))
    {
      CreateVertices(vElems);
      CreateEdges(eElems);
    }

    /** Takes the given vertices, then creates the edges. */
    method CreateMeshFromMap(vs: map<nat, Node>, eElems: seq<EdgeElem>)
      requires forall k :: 0 <= k < |eElems| ==> eElems[k].src in vs && eElems[k].dst in vs
      modifies this`vertices
      ensures EdgesAdded(vs, vertices, eElems)
    {
      SetVertices(vs);
      CreateEdges(eElems);
    }

    /** `Graph(vertex_elems, edge_elems)`: a fresh graph built by
        `CreateMesh`, which holds exactly the mesh of the descriptors. */
    constructor FromElements(vElems: seq<VertexElem>, eElems: seq<EdgeElem>)
      requires Anchored(vElems, eElems)
      ensures vertices == MeshOf(vElems, eElems)
      ensures Closed(vertices) && Owned(vertices)
      ensures visited == map[] && astarPath == [] && dijkstraPath == [] && optimalPath == []
    {
      vertices, visited := map[], map[];
      astarPath, dijkstraPath, optimalPath := [], [], [];
      new;
      CreateMesh(vElems, eElems);
      MeshOfShape(vElems, eElems);
    }

    /** Empties the graph, then for each element in order creates each
        endpoint not present yet (with the coordinates it carries) and
        appends the edge to its source. */
    method CreateMeshFromElements(ms: seq<MeshElem>)
      modifies this`vertices
      ensures vertices == MeshOf(Endpoints(ms), MeshArcs(ms))
      ensures Closed(vertices) && Owned(vertices)
    {
      ClearGraph();
      for i := 0 to |ms|
        invariant vertices == Built(ms[..i])
      {
        var m := ms[i];
        ghost var before := vertices;
        if m.src.position !in vertices {
          vertices := vertices[m.src.position := NodeOf(m.src)];
        }
        if m.dst.position !in vertices {
          vertices := vertices[m.dst.position := NodeOf(m.dst)];
        }
        var arc := EdgeElem(m.src.position, m.dst.position, m.cost);
        var v := vertices[m.src.position];
        vertices := vertices[m.src.position := v.(edges := v.edges + [arc])];
        assert vertices == AddMeshElem(before, m);
        assert ms[..i + 1][..i] == ms[..i];
      }
      assert ms[..|ms|] == ms;
      BuiltMesh(ms);
      MeshArcsAnchored(ms);
      MeshOfShape(Endpoints(ms), MeshArcs(ms));
    }
  }
}
