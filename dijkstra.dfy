/** `compute_dijkstra`: costs from the start vertex, relaxed over the
    traversable edges in the order a min-queue of `(cost, position)` pairs
    hands out the vertices, then the predecessor walk back from the end
    vertex. */
module Dijkstra {
  import opened Records
  import opened Routes
  import Graphs

  // ---------------------------------------------------------------------
  // The invariant of the relaxation loop, piece by piece

  /** Every vertex has a cost and a predecessor entry, and nothing else. */
  ghost predicate Tracked(vs: map<nat, Node>, costs: map<nat, Cost>, previous: map<nat, nat>)
  {
    costs.Keys == vs.Keys && previous.Keys == vs.Keys
  }

  /** Queue entries name vertices, never undercut the vertex's current cost
      and are not below the last key popped. */
  ghost predicate QueueOk(vs: map<nat, Node>, costs: map<nat, Cost>, queue: seq<Entry>, last: Cost)
  {
    forall k :: 0 <= k < |queue| ==>
      queue[k].1 in vs && queue[k].1 in costs && AtMost(costs[queue[k].1], queue[k].0) && AtMost(last, queue[k].0)
  }

  /** A vertex not settled yet waits in the queue with its current cost. */
  ghost predicate Waiting(vs: map<nat, Node>, costs: map<nat, Cost>, queue: seq<Entry>, settled: set<nat>)
  {
    forall v :: v in vs && v !in settled ==> v in costs && (costs[v], v) in queue
  }

  /** Settled vertices cost no more than the last key popped and have had
      all their edges relaxed; `except` may still be relaxing. */
  ghost predicate SettledOk(vs: map<nat, Node>, costs: map<nat, Cost>, settled: set<nat>, last: Cost, except: nat)
  {
    forall w :: w in settled ==>
      w in vs && w in costs && AtMost(costs[w], last) && (w != except ==> Relaxed(vs, costs, w))
  }

  /** Every finite cost is the cost of a route from the start. */
  ghost predicate Witnessed(vs: map<nat, Node>, start: nat, costs: map<nat, Cost>, w: map<nat, seq<Arc>>)
  {
    forall v :: v in vs && v in costs && costs[v].Fin? ==>
      && v in w && IsRoute(vs, start, w[v], v)
      && RouteCost(vs, start, w[v], v) == costs[v].r && costs[v].r >= 0.0
  }

  /** A predecessor is a settled vertex whose edge `via[v]` gives `v` its
      cost, and was settled before `v` when both are; a vertex other than
      the start with a finite cost has a predecessor. */
  ghost predicate Linked(vs: map<nat, Node>, start: nat, costs: map<nat, Cost>, previous: map<nat, nat>,
                         via: map<nat, nat>, settled: set<nat>, stamp: map<nat, nat>)
  {
    && (forall v :: v in vs && v in previous && previous[v] != UINT_MAX ==>
          && previous[v] in settled && previous[v] in stamp && v in via && v in costs && previous[v] in costs
          && IsArc(vs, Arc(previous[v], via[v])) && Head(vs, Arc(previous[v], via[v])) == v
          && costs[v].Fin?
          && costs[v] == Plus(costs[previous[v]], ArcCost(vs, Arc(previous[v], via[v])))
          && (v in settled ==> v in stamp && stamp[previous[v]] < stamp[v]))
    && (forall v :: v in vs && v in costs && costs[v].Fin? && v != start ==> v in previous && previous[v] != UINT_MAX)
  }

  /** The settling order: each settled vertex has a distinct earlier tick. */
  ghost predicate Stamped(settled: set<nat>, stamp: map<nat, nat>, clock: nat)
  {
    stamp.Keys == settled && forall w :: w in stamp ==> stamp[w] < clock
  }

  /** All of the above, with the start at cost zero. */
  ghost predicate Inv(vs: map<nat, Node>, start: nat, costs: map<nat, Cost>, previous: map<nat, nat>,
                      queue: seq<Entry>, settled: set<nat>, last: Cost, w: map<nat, seq<Arc>>,
                      via: map<nat, nat>, stamp: map<nat, nat>, clock: nat, except: nat)
  {
    && Tracked(vs, costs, previous)
    && QueueOk(vs, costs, queue, last)
    && Waiting(vs, costs, queue, settled)
    && SettledOk(vs, costs, settled, last, except)
    && Witnessed(vs, start, costs, w)
    && Linked(vs, start, costs, previous, via, settled, stamp)
    && Stamped(settled, stamp, clock)
    && start in costs && costs[start] == Fin(0.0)
  }

  // ---------------------------------------------------------------------
  // The solver

  /** Shortest route from `start` to `end` over the traversable edges.
      When `end` is reachable the path is the sequence of positions of a
      shortest route (just `[start]` when `end == start`); otherwise the
      predecessor walk stops at once and the path is `[start, end]`. An
      end that is not a vertex gets the path the walk finds to 0, followed
      by `end`. */
  method Solve(vs: map<nat, Node>, start: nat, end: nat) returns (path: seq<nat>, ghost route: seq<Arc>)
    requires start in vs
    requires end in vs || end == UINT_MAX || 0 in vs
    requires forall v :: v in vs ==> v < UINT_MAX
    requires HeadsIn(vs) && NonNegative(vs)
    ensures end == start || end == UINT_MAX ==> path == [start]
    ensures end in vs && Reaches(vs, start, end) ==> Shortest(vs, start, route, end) && path == Positions(vs, start, route, end)
    ensures end in vs && !Reaches(vs, start, end) ==> path == [start, end]
    ensures Astray(vs, end) && Reaches(vs, start, 0) ==> Shortest(vs, start, route, 0) && path == Positions(vs, start, route, 0) + [end]
    ensures Astray(vs, end) && !Reaches(vs, start, 0) ==> path == [start, 0, end]
  {
    var costs, previous, queue := Seed(vs, start);
    ghost var settled: set<nat> := {};
    ghost var stamp: map<nat, nat> := map[];
    ghost var clock: nat := 0;
    ghost var last := Fin(0.0);
    ghost var w: map<nat, seq<Arc>> := map[start := []];
    ghost var via: map<nat, nat> := map[];
    while queue != []
      invariant Inv(vs, start, costs, previous, queue, settled, last, w, via, stamp, clock, UINT_MAX)
      decreases vs.Keys - settled, |queue|
    {
      var i := MinIndex(queue);
      var u := queue[i].1;
      ghost var before := queue;
      queue := RemoveAt(queue, i);
      ghost var settling := u !in settled;
      Popped(vs, start, costs, previous, before, i, queue, settled, last, w, via, stamp, clock);
      last := before[i].0;
      if settling {
        settled := settled + {u};
        stamp := stamp[u := clock];
        clock := clock + 1;
      }
      ghost var queue0 := queue;
      costs, previous, queue, w, via := Relax(vs, start, u, costs, previous, queue, settled, last, w, via, stamp, clock, settling);
      assert !settling ==> queue == queue0;
    }
    Settled(vs, start, costs, previous, settled, last, w, via, stamp, clock);
    path, route := Walk(vs, start, end, costs, previous, via, stamp);
  }

  /** `compute_dijkstra`: solves over the graph's vertices and stores the
      path as the graph's Dijkstra path; nothing else in the graph changes. */
  method ComputeDijkstra(g: Graphs.Graph, start: nat, end: nat) returns (ghost route: seq<Arc>)
    requires start in g.vertices
    requires end in g.vertices || end == UINT_MAX || 0 in g.vertices
    requires forall v :: v in g.vertices ==> v < UINT_MAX
    requires HeadsIn(g.vertices) && NonNegative(g.vertices)
    modifies g`dijkstraPath
    ensures end == start || end == UINT_MAX ==> g.dijkstraPath == [start]
    ensures end in g.vertices && Reaches(g.vertices, start, end) ==>
      Shortest(g.vertices, start, route, end) && g.dijkstraPath == Positions(g.vertices, start, route, end)
    ensures end in g.vertices && !Reaches(g.vertices, start, end) ==> g.dijkstraPath == [start, end]
    ensures Astray(g.vertices, end) && Reaches(g.vertices, start, 0) ==>
      Shortest(g.vertices, start, route, 0) && g.dijkstraPath == Positions(g.vertices, start, route, 0) + [end]
    ensures Astray(g.vertices, end) && !Reaches(g.vertices, start, 0) ==> g.dijkstraPath == [start, 0, end]
  {
    var path;
    path, route := Solve(g.vertices, start, end);
    g.SetDijkstraPath(path);
  }

  /** The state the search starts from: every vertex has cost 0 if it is
      the start and infinity otherwise, and no predecessor; the queue holds
      one entry per vertex at its cost, then `(0, start)` once more. */
  ghost predicate Initial(vs: map<nat, Node>, start: nat, costs: map<nat, Cost>, previous: map<nat, nat>, queue: seq<Entry>)
  {
    && costs.Keys == vs.Keys && previous.Keys == vs.Keys
    && (forall v :: v in vs ==> costs[v] == (if v == start then Fin(0.0) else Inf) && previous[v] == UINT_MAX)
    && |queue| == |vs.Keys| + 1 && queue[|queue| - 1] == (Fin(0.0), start)
    && (forall v :: v in vs ==> (costs[v], v) in queue[..|queue| - 1])
    && (forall k :: 0 <= k < |queue| - 1 ==> queue[k].1 in vs && queue[k].0 == costs[queue[k].1])
  }

  /** The seeding loop: every vertex gets cost 0 if it is the start and
      infinity otherwise, no predecessor and a queue entry at that cost;
      then the start is pushed once more at cost 0. */
  method Seed(vs: map<nat, Node>, start: nat) returns (costs: map<nat, Cost>, previous: map<nat, nat>, queue: seq<Entry>)
    requires start in vs
    ensures Inv(vs, start, costs, previous, queue, {}, Fin(0.0), map[start := []], map[], map[], 0, UINT_MAX)
    ensures Initial(vs, start, costs, previous, queue)
  {
    costs, previous, queue := Fill(vs, start);
    SeedPush(vs, start, costs, previous, queue);
    costs := costs[start := Fin(0.0)];
    queue := queue + [(Fin(0.0), start)];
  }

  /** The loop over the vertices: each gets cost 0 if it is the start and
      infinity otherwise, no predecessor, and one queue entry at that
      cost. */
  method Fill(vs: map<nat, Node>, start: nat) returns (costs: map<nat, Cost>, previous: map<nat, nat>, queue: seq<Entry>)
    ensures costs.Keys == vs.Keys && previous.Keys == vs.Keys
    ensures forall v :: v in costs ==> costs[v] == (if v == start then Fin(0.0) else Inf) && previous[v] == UINT_MAX
    ensures forall k :: 0 <= k < |queue| ==> queue[k].1 in costs && queue[k].0 == costs[queue[k].1]
    ensures forall v :: v in costs ==> (costs[v], v) in queue
    ensures |queue| == |vs.Keys|
  {
    costs, previous, queue := map[], map[], [];
    var todo := vs.Keys;
    while todo != {}
      invariant todo <= vs.Keys
      invariant costs.Keys == vs.Keys - todo && previous.Keys == vs.Keys - todo
      invariant forall v :: v in costs ==> costs[v] == (if v == start then Fin(0.0) else Inf) && previous[v] == UINT_MAX
      invariant forall k :: 0 <= k < |queue| ==> queue[k].1 in costs && queue[k].0 == costs[queue[k].1]
      invariant forall v :: v in costs ==> (costs[v], v) in queue
      invariant |queue| + |todo| == |vs.Keys|
    {
      var v :| v in todo;
      costs := costs[v := if v == start then Fin(0.0) else Inf];
      previous := previous[v := UINT_MAX];
      queue := queue + [(costs[v], v)];
      todo := todo - {v};
    }
  }

  /** The state the seeding loop leaves, with the start pushed once more
      at cost 0. */
  lemma SeedPush(vs: map<nat, Node>, start: nat, costs: map<nat, Cost>, previous: map<nat, nat>, seeded: seq<Entry>)
    requires start in vs
    requires costs.Keys == vs.Keys && previous.Keys == vs.Keys
    requires forall v :: v in costs ==> costs[v] == (if v == start then Fin(0.0) else Inf) && previous[v] == UINT_MAX
    requires forall k :: 0 <= k < |seeded| ==> seeded[k].1 in costs && seeded[k].0 == costs[seeded[k].1]
    requires forall v :: v in costs ==> (costs[v], v) in seeded
    requires |seeded| == |vs.Keys|
    ensures var costs', queue := costs[start := Fin(0.0)], seeded + [(Fin(0.0), start)];
      && Inv(vs, start, costs', previous, queue, {}, Fin(0.0), map[start := []], map[], map[], 0, UINT_MAX)
      && costs' == costs
      && Initial(vs, start, costs', previous, queue)
  {
    var costs', queue := costs[start := Fin(0.0)], seeded + [(Fin(0.0), start)];
    assert costs' == costs;
    assert queue[..|queue| - 1] == seeded;
    Seeded(vs, start, costs, previous, queue);
  }

  /** The inner loop over the edges of the popped vertex `u`: each
      traversable edge whose head it makes cheaper lowers that head's cost,
      records `u` as its predecessor and pushes it. A `u` popped again was
      relaxed already, and then nothing changes. */
  method Relax(vs: map<nat, Node>, start: nat, u: nat, costs0: map<nat, Cost>, previous0: map<nat, nat>,
               queue0: seq<Entry>, ghost settled: set<nat>, ghost last: Cost, ghost w0: map<nat, seq<Arc>>,
               ghost via0: map<nat, nat>, ghost stamp: map<nat, nat>, ghost clock: nat, ghost settling: bool)
    returns (costs: map<nat, Cost>, previous: map<nat, nat>, queue: seq<Entry>,
             ghost w: map<nat, seq<Arc>>, ghost via: map<nat, nat>)
    requires forall v :: v in vs ==> v < UINT_MAX
    requires HeadsIn(vs) && NonNegative(vs)
    requires Inv(vs, start, costs0, previous0, queue0, settled, last, w0, via0, stamp, clock, u)
    requires u in settled && u in vs
    requires settling ==> costs0[u] == last
    requires !settling ==> Relaxed(vs, costs0, u)
    ensures Inv(vs, start, costs, previous, queue, settled, last, w, via, stamp, clock, UINT_MAX)
    ensures !settling ==> queue == queue0
  {
    costs, previous, queue, w, via := costs0, previous0, queue0, w0, via0;
    for j := 0 to |vs[u].edges|
      invariant Inv(vs, start, costs, previous, queue, settled, last, w, via, stamp, clock, u)
      invariant costs[u] == costs0[u]
      invariant RelaxedBelow(vs, costs, u, j)
      invariant !settling ==> costs == costs0 && previous == previous0 && queue == queue0
    {
      costs, previous, queue, w, via := RelaxEdge(vs, start, u, j, costs, previous, queue, settled, last, w, via, stamp, clock, settling);
    }
    DoneRelaxing(vs, costs, settled, last, u);
  }

  /** One round of the inner loop: edge `j` of `u`. */
  method RelaxEdge(vs: map<nat, Node>, start: nat, u: nat, j: nat, costs0: map<nat, Cost>, previous0: map<nat, nat>,
                   queue0: seq<Entry>, ghost settled: set<nat>, ghost last: Cost, ghost w0: map<nat, seq<Arc>>,
                   ghost via0: map<nat, nat>, ghost stamp: map<nat, nat>, ghost clock: nat, ghost settling: bool)
    returns (costs: map<nat, Cost>, previous: map<nat, nat>, queue: seq<Entry>,
             ghost w: map<nat, seq<Arc>>, ghost via: map<nat, nat>)
    requires forall v :: v in vs ==> v < UINT_MAX
    requires HeadsIn(vs) && NonNegative(vs)
    requires Inv(vs, start, costs0, previous0, queue0, settled, last, w0, via0, stamp, clock, u)
    requires u in settled && u in vs && j < |vs[u].edges|
    requires RelaxedBelow(vs, costs0, u, j)
    requires settling ==> costs0[u] == last
    requires !settling ==> Relaxed(vs, costs0, u)
    ensures Inv(vs, start, costs, previous, queue, settled, last, w, via, stamp, clock, u)
    ensures costs[u] == costs0[u]
    ensures RelaxedBelow(vs, costs, u, j + 1)
    ensures !settling ==> costs == costs0 && previous == previous0 && queue == queue0
  {
    costs, previous, queue, w, via := costs0, previous0, queue0, w0, via0;
    var e := vs[u].edges[j];
    if !Traversable(e) {
      RelaxedBelowKept(vs, costs, u, j);
      return;
    }
    var n := e.dst;
    var total := Plus(costs[u], e.cost);
    if Less(total, costs[n]) {
      Improve(vs, start, costs, previous, queue, settled, last, w, via, stamp, clock, u, j);
      costs := costs[n := total];
      previous := previous[n := u];
      queue := queue + [(total, n)];
      w := w[n := w[u] + [Arc(u, j)]];
      via := via[n := j];
    } else {
      RelaxedBelowKept(vs, costs, u, j);
    }
  }

  /** An end position that is neither a vertex nor the "no predecessor"
      mark: looking up its predecessor inserts the default 0. */
  predicate Astray(vs: map<nat, Node>, end: nat)
  {
    end !in vs && end != UINT_MAX
  }

  /** The predecessor walk back from `end`, reversed. Over the final costs
      it spells out a shortest route, or `[start, end]` when `end` was
      never reached. An end that is not a vertex has no entry in
      `previous`: the lookup inserts 0, so the walk goes on from 0 as if
      0 were the end, and `end` is appended to that path. */
  method Walk(vs: map<nat, Node>, start: nat, end: nat, costs: map<nat, Cost>, previous: map<nat, nat>,
              ghost via: map<nat, nat>, ghost stamp: map<nat, nat>)
    returns (path: seq<nat>, ghost route: seq<Arc>)
    requires start in vs
    requires end in vs || end == UINT_MAX || 0 in vs
    requires forall v :: v in vs ==> v < UINT_MAX
    requires Tracked(vs, costs, previous) && costs[start] == Fin(0.0)
    requires stamp.Keys == vs.Keys && Linked(vs, start, costs, previous, via, vs.Keys, stamp)
    requires forall v, r :: v in vs && IsRoute(vs, start, r, v) ==> AtMost(costs[v], Fin(RouteCost(vs, start, r, v)))
    requires forall v :: v in vs && costs[v].Fin? ==> Reaches(vs, start, v)
    ensures end == start || end == UINT_MAX ==> path == [start]
    ensures end in vs && Reaches(vs, start, end) ==> Shortest(vs, start, route, end) && path == Positions(vs, start, route, end)
    ensures end in vs && !Reaches(vs, start, end) ==> path == [start, end]
    ensures Astray(vs, end) && Reaches(vs, start, 0) ==> Shortest(vs, start, route, 0) && path == Positions(vs, start, route, 0) + [end]
    ensures Astray(vs, end) && !Reaches(vs, start, 0) ==> path == [start, 0, end]
  {
    var prev := previous;
    var rev: seq<nat> := [];
    var cur := end;
    route := [];
    ghost var lead: seq<nat> := [];
    ghost var walked: seq<nat> := [];
    while cur != UINT_MAX && cur != start
      invariant WalkAt(vs, start, end, costs, previous, prev, cur, route, rev, lead, walked)
      decreases if cur in vs || cur == UINT_MAX then 0 else 1, if cur in stamp then stamp[cur] + 1 else 0
    {
      if cur in vs {
        route, walked := WalkBack(vs, start, end, costs, previous, via, stamp, prev, cur, route, rev, lead, walked);
      } else {
        WalkAstray(vs, start, end, costs, previous, prev, cur, route, rev, lead, walked);
        route, lead, walked := [], [end], [];
      }
      rev := rev + [cur];
      if cur !in prev {
        prev := prev[cur := 0];
      }
      cur := prev[cur];
    }
    path := Reverse(rev + [start]);
    WalkEnd(vs, start, end, costs, prev, previous, cur, route, rev, lead, walked);
  }

  /** The walk back from `end` so far: before the first step from an
      astray end, or on a walk back to `end`, or to 0 once an astray end
      has been stepped over. */
  ghost predicate WalkAt(vs: map<nat, Node>, start: nat, end: nat, costs: map<nat, Cost>,
                         previous: map<nat, nat>, prev: map<nat, nat>, cur: nat, route: seq<Arc>,
                         rev: seq<nat>, lead: seq<nat>, walked: seq<nat>)
  {
    && rev == lead + walked
    && (end == start || end == UINT_MAX ==> cur == end && rev == [])
    && (end in vs ==> lead == [] && prev == previous && Walking(vs, end, costs, cur, route, walked))
    && (Astray(vs, end) ==>
        || (cur == end && rev == [] && route == [] && prev == previous)
        || (lead == [end] && prev == previous[end := 0] && Walking(vs, 0, costs, cur, route, walked)))
  }

  /** One step of the walk from a vertex: back to its predecessor, settled
      earlier, along the arc that set its cost. */
  lemma WalkBack(vs: map<nat, Node>, start: nat, end: nat, costs: map<nat, Cost>, previous: map<nat, nat>,
                 via: map<nat, nat>, stamp: map<nat, nat>, prev: map<nat, nat>, cur: nat, route: seq<Arc>,
                 rev: seq<nat>, lead: seq<nat>, walked: seq<nat>)
    returns (route': seq<Arc>, walked': seq<nat>)
    requires start in vs
    requires end in vs || end == UINT_MAX || 0 in vs
    requires forall v :: v in vs ==> v < UINT_MAX
    requires Tracked(vs, costs, previous)
    requires stamp.Keys == vs.Keys && Linked(vs, start, costs, previous, via, vs.Keys, stamp)
    requires WalkAt(vs, start, end, costs, previous, prev, cur, route, rev, lead, walked)
    requires cur in vs && cur != start
    ensures cur in prev && prev[cur] == previous[cur]
    ensures previous[cur] == UINT_MAX || (previous[cur] in stamp && stamp[previous[cur]] < stamp[cur])
    ensures WalkAt(vs, start, end, costs, previous, prev, previous[cur], route', rev + [cur], lead, walked')
  {
    assert end != start && end != UINT_MAX;
    route' := if previous[cur] != UINT_MAX then [Arc(previous[cur], via[cur])] + route else route;
    walked' := walked + [cur];
    if end in vs {
      WalkStep(vs, start, end, costs, previous, via, stamp, cur, route, walked);
    } else {
      assert lead == [end] && prev == previous[end := 0] && Walking(vs, 0, costs, cur, route, walked);
      WalkStep(vs, start, 0, costs, previous, via, stamp, cur, route, walked);
      assert rev + [cur] == [end] + walked';
    }
  }

  /** The first step of the walk from an end that is not a vertex: the
      lookup inserts 0, and the walk goes on from 0. */
  lemma WalkAstray(vs: map<nat, Node>, start: nat, end: nat, costs: map<nat, Cost>, previous: map<nat, nat>,
                   prev: map<nat, nat>, cur: nat, route: seq<Arc>, rev: seq<nat>, lead: seq<nat>, walked: seq<nat>)
    requires start in vs
    requires end in vs || end == UINT_MAX || 0 in vs
    requires forall v :: v in vs ==> v < UINT_MAX
    requires Tracked(vs, costs, previous)
    requires WalkAt(vs, start, end, costs, previous, prev, cur, route, rev, lead, walked)
    requires cur !in vs && cur != UINT_MAX
    ensures cur !in prev && 0 in vs
    ensures WalkAt(vs, start, end, costs, previous, prev[cur := 0], 0, [], rev + [cur], [end], [])
  {
    WalkFrom(vs, costs, 0);
  }

  /** Where the walk stops, reversed into a path. */
  lemma WalkEnd(vs: map<nat, Node>, start: nat, end: nat, costs: map<nat, Cost>, prev: map<nat, nat>,
                previous: map<nat, nat>, cur: nat, route: seq<Arc>, rev: seq<nat>, lead: seq<nat>, walked: seq<nat>)
    requires start in vs
    requires forall v :: v in vs ==> v < UINT_MAX
    requires costs.Keys == vs.Keys && costs[start] == Fin(0.0)
    requires forall v, r :: v in vs && IsRoute(vs, start, r, v) ==> AtMost(costs[v], Fin(RouteCost(vs, start, r, v)))
    requires forall v :: v in vs && costs[v].Fin? ==> Reaches(vs, start, v)
    requires WalkAt(vs, start, end, costs, previous, prev, cur, route, rev, lead, walked)
    requires cur == UINT_MAX || cur == start
    ensures end == start || end == UINT_MAX ==> Reverse(rev + [start]) == [start]
    ensures end in vs && Reaches(vs, start, end) ==>
      Shortest(vs, start, route, end) && Reverse(rev + [start]) == Positions(vs, start, route, end)
    ensures end in vs && !Reaches(vs, start, end) ==> Reverse(rev + [start]) == [start, end]
    ensures Astray(vs, end) && Reaches(vs, start, 0) ==>
      Shortest(vs, start, route, 0) && Reverse(rev + [start]) == Positions(vs, start, route, 0) + [end]
    ensures Astray(vs, end) && !Reaches(vs, start, 0) ==> Reverse(rev + [start]) == [start, 0, end]
  {
    if end == start || end == UINT_MAX {
      assert rev == [];
      ReverseSnoc([], start);
    } else if end in vs {
      assert rev == walked && Walking(vs, end, costs, cur, route, rev);
      WalkEndVertex(vs, start, end, costs, cur, route, rev);
    } else {
      assert cur != end;
      assert rev == [end] + walked && Walking(vs, 0, costs, cur, route, walked);
      WalkEndAstray(vs, start, end, costs, cur, route, walked);
    }
  }

  /** The walk back from a vertex. */
  lemma WalkEndVertex(vs: map<nat, Node>, start: nat, end: nat, costs: map<nat, Cost>, cur: nat, route: seq<Arc>, rev: seq<nat>)
    requires start in vs && end in vs
    requires forall v :: v in vs ==> v < UINT_MAX
    requires costs.Keys == vs.Keys && costs[start] == Fin(0.0)
    requires forall v, r :: v in vs && IsRoute(vs, start, r, v) ==> AtMost(costs[v], Fin(RouteCost(vs, start, r, v)))
    requires forall v :: v in vs && costs[v].Fin? ==> Reaches(vs, start, v)
    requires Walking(vs, end, costs, cur, route, rev) && (cur == UINT_MAX || cur == start)
    ensures Reaches(vs, start, end) ==> Shortest(vs, start, route, end) && Reverse(rev + [start]) == Positions(vs, start, route, end)
    ensures !Reaches(vs, start, end) ==> Reverse(rev + [start]) == [start, end]
  {
    WalkDone(vs, start, end, costs, cur, route, rev);
    if !Reaches(vs, start, end) {
      ReverseSnoc([end], start);
    }
  }

  /** The walk back from an astray end: one step to 0, then the walk back
      from 0. */
  lemma WalkEndAstray(vs: map<nat, Node>, start: nat, end: nat, costs: map<nat, Cost>, cur: nat, route: seq<Arc>, walked: seq<nat>)
    requires start in vs && 0 in vs
    requires forall v :: v in vs ==> v < UINT_MAX
    requires costs.Keys == vs.Keys && costs[start] == Fin(0.0)
    requires forall v, r :: v in vs && IsRoute(vs, start, r, v) ==> AtMost(costs[v], Fin(RouteCost(vs, start, r, v)))
    requires forall v :: v in vs && costs[v].Fin? ==> Reaches(vs, start, v)
    requires Walking(vs, 0, costs, cur, route, walked) && (cur == UINT_MAX || cur == start)
    ensures Reaches(vs, start, 0) ==>
      Shortest(vs, start, route, 0) && Reverse([end] + walked + [start]) == Positions(vs, start, route, 0) + [end]
    ensures !Reaches(vs, start, 0) ==> Reverse([end] + walked + [start]) == [start, 0, end]
  {
    WalkDone(vs, start, 0, costs, cur, route, walked);
    assert [end] + walked + [start] == [end] + (walked + [start]);
    ReverseCons(end, walked + [start]);
    if !Reaches(vs, start, 0) {
      ReverseSnoc([0], start);
    }
  }

  /** A walk back to `v` starts at `v` itself. */
  lemma WalkFrom(vs: map<nat, Node>, costs: map<nat, Cost>, v: nat)
    requires v in vs && v != UINT_MAX && costs.Keys == vs.Keys
    ensures Walking(vs, v, costs, v, [], [])
  {
    assert IsRoute(vs, v, [], v);
  }

  /** The walk back from `end` so far: `route` leads from `cur` to `end`
      through the positions walked, in reverse, and `cur` carries the rest
      of the cost of `end`; from an end with no cost the walk stops at
      once. */
  ghost predicate Walking(vs: map<nat, Node>, end: nat, costs: map<nat, Cost>, cur: nat, route: seq<Arc>, rev: seq<nat>)
  {
    && (cur == UINT_MAX || cur in vs)
    && end in costs
    && (cur != UINT_MAX ==> IsRoute(vs, cur, route, end) && Positions(vs, cur, route, end) == [cur] + Reverse(rev))
    && (costs[end].Fin? ==> cur != UINT_MAX && cur in costs && costs[cur].Fin?
                            && costs[end].r == costs[cur].r + RouteCost(vs, cur, route, end))
    && (costs[end].Inf? ==> (cur == end && rev == []) || (cur == UINT_MAX && rev == [end]))
  }

  /** One step back along the predecessors keeps the walk on a route to
      `end`, and moves to a vertex settled earlier. */
  lemma WalkStep(vs: map<nat, Node>, start: nat, end: nat, costs: map<nat, Cost>, previous: map<nat, nat>,
                 via: map<nat, nat>, stamp: map<nat, nat>, cur: nat, route: seq<Arc>, rev: seq<nat>)
    requires forall v :: v in vs ==> v < UINT_MAX
    requires Tracked(vs, costs, previous)
    requires stamp.Keys == vs.Keys && Linked(vs, start, costs, previous, via, vs.Keys, stamp)
    requires Walking(vs, end, costs, cur, route, rev) && cur != UINT_MAX && cur != start
    ensures cur in previous
    ensures var p := previous[cur];
      && (p != UINT_MAX ==> cur in via && p in stamp && stamp[p] < stamp[cur])
      && Walking(vs, end, costs, p, if p != UINT_MAX then [Arc(p, via[cur])] + route else route, rev + [cur])
  {
    var p := previous[cur];
    if p != UINT_MAX {
      var a := Arc(p, via[cur]);
      RoutePrepend(vs, a, cur, route, end);
      assert [p] + Reverse(rev + [cur]) == [p] + ([cur] + Reverse(rev)) by {
        ReverseSnoc(rev, cur);
      }
    } else {
      assert costs[cur].Inf?;
    }
  }

  /** Where the walk stops: at the start when `end` has a cost, so the
      route is a shortest one; otherwise at once. */
  lemma WalkDone(vs: map<nat, Node>, start: nat, end: nat, costs: map<nat, Cost>, cur: nat, route: seq<Arc>, rev: seq<nat>)
    requires start in vs && end in vs && start != UINT_MAX && end != UINT_MAX
    requires costs.Keys == vs.Keys && costs[start] == Fin(0.0)
    requires forall v, r :: v in vs && IsRoute(vs, start, r, v) ==> AtMost(costs[v], Fin(RouteCost(vs, start, r, v)))
    requires forall v :: v in vs && costs[v].Fin? ==> Reaches(vs, start, v)
    requires Walking(vs, end, costs, cur, route, rev) && (cur == UINT_MAX || cur == start)
    ensures Reaches(vs, start, end) ==> Shortest(vs, start, route, end) && Reverse(rev + [start]) == Positions(vs, start, route, end)
    ensures !Reaches(vs, start, end) ==> costs[end].Inf? && rev == [end]
  {
    ReverseSnoc(rev, start);
    if end == start {
      assert IsRoute(vs, start, [], end);
    }
  }


  /** With every edge of `u` relaxed, `u` joins the relaxed settled
      vertices. */
  lemma DoneRelaxing(vs: map<nat, Node>, costs: map<nat, Cost>, settled: set<nat>, last: Cost, u: nat)
    requires u in vs && u in costs
    requires SettledOk(vs, costs, settled, last, u) && RelaxedBelow(vs, costs, u, |vs[u].edges|)
    ensures SettledOk(vs, costs, settled, last, UINT_MAX)
  {
    assert Relaxed(vs, costs, u);
  }

  /** Popping the least entry: the rest of the queue is not below it, a
      vertex not settled yet is popped with its current cost, and every
      vertex still waiting keeps an entry. */
  lemma PopKeepsOrder(vs: map<nat, Node>, costs: map<nat, Cost>, before: seq<Entry>, i: nat,
                      after: seq<Entry>, last: Cost, settled: set<nat>)
    requires |before| > 0 && i == MinIndex(before) && after == RemoveAt(before, i)
    requires QueueOk(vs, costs, before, last) && Waiting(vs, costs, before, settled)
    ensures AtMost(last, before[i].0)
    ensures QueueOk(vs, costs, after, before[i].0)
    ensures before[i].1 !in settled ==> costs[before[i].1] == before[i].0
    ensures Waiting(vs, costs, after, settled + {before[i].1})
  {
    var d, u := before[i].0, before[i].1;
    forall k | 0 <= k < |after| ensures AtMost(d, after[k].0) {
      assert after[k] in multiset(after);
      assert after[k] in before;
      var m :| 0 <= m < |before| && before[m] == after[k];
      assert EntryAtMost(before[i], before[m]);
    }
    forall k | 0 <= k < |after| ensures after[k] in before {
      assert after[k] in multiset(after);
    }
    if u !in settled {
      assert (costs[u], u) in before;
      var m :| 0 <= m < |before| && before[m] == (costs[u], u);
      assert EntryAtMost(before[i], before[m]);
    }
    forall v | v in vs && v !in settled + {u} ensures (costs[v], v) in after {
      assert (costs[v], v) in multiset(before);
      assert (costs[v], v) != before[i];
      assert (costs[v], v) in multiset(after);
    }
  }

  /** The state the seeding loop leaves satisfies the invariant, with
      nothing settled and only the start's empty route as a witness. */
  lemma Seeded(vs: map<nat, Node>, start: nat, costs: map<nat, Cost>, previous: map<nat, nat>, queue: seq<Entry>)
    requires start in vs
    requires costs.Keys == vs.Keys && previous.Keys == vs.Keys
    requires forall v :: v in costs ==> costs[v] == (if v == start then Fin(0.0) else Inf) && previous[v] == UINT_MAX
    requires forall k :: 0 <= k < |queue| ==> queue[k].1 in costs && queue[k].0 == costs[queue[k].1]
    requires forall v :: v in costs ==> (costs[v], v) in queue
    ensures Inv(vs, start, costs, previous, queue, {}, Fin(0.0), map[start := []], map[], map[], 0, UINT_MAX)
  {
  }

  /** After popping the least entry `(d, u)` and settling `u` if it was
      not settled yet, the invariant holds with `d` as the last key and
      `u` relaxing: a fresh `u` has cost `d`, a settled one is relaxed. */
  lemma Popped(vs: map<nat, Node>, start: nat, costs: map<nat, Cost>, previous: map<nat, nat>,
               before: seq<Entry>, i: nat, after: seq<Entry>, settled: set<nat>, last: Cost,
               w: map<nat, seq<Arc>>, via: map<nat, nat>, stamp: map<nat, nat>, clock: nat)
    requires forall v :: v in vs ==> v < UINT_MAX
    requires |before| > 0 && i == MinIndex(before) && after == RemoveAt(before, i)
    requires Inv(vs, start, costs, previous, before, settled, last, w, via, stamp, clock, UINT_MAX)
    ensures var d, u := before[i].0, before[i].1;
      && u in vs && u in costs
      && (u !in settled ==> costs[u] == d)
      && (u !in settled ==> Inv(vs, start, costs, previous, after, settled + {u}, d, w, via, stamp[u := clock], clock + 1, u))
      && (u in settled ==> Relaxed(vs, costs, u))
      && (u in settled ==> Inv(vs, start, costs, previous, after, settled, d, w, via, stamp, clock, u))
  {
    var d, u := before[i].0, before[i].1;
    PopKeepsOrder(vs, costs, before, i, after, last, settled);
    assert before[i] in before;
    LaterKey(vs, costs, settled, last, d, u);
    if u !in settled {
      Settle(vs, start, costs, previous, after, settled, d, w, via, stamp, clock, u);
    } else {
      assert Relaxed(vs, costs, u);
    }
  }

  /** Settling `u`, popped with its current cost `d`, at tick `clock`
      keeps the invariant with `u` relaxing. */
  lemma Settle(vs: map<nat, Node>, start: nat, costs: map<nat, Cost>, previous: map<nat, nat>,
               queue: seq<Entry>, settled: set<nat>, d: Cost,
               w: map<nat, seq<Arc>>, via: map<nat, nat>, stamp: map<nat, nat>, clock: nat, u: nat)
    requires u in vs && u in costs && u !in settled && costs[u] == d
    requires Tracked(vs, costs, previous) && QueueOk(vs, costs, queue, d)
    requires Waiting(vs, costs, queue, settled + {u}) && SettledOk(vs, costs, settled, d, u)
    requires Witnessed(vs, start, costs, w) && Linked(vs, start, costs, previous, via, settled, stamp)
    requires Stamped(settled, stamp, clock) && start in costs && costs[start] == Fin(0.0)
    ensures Inv(vs, start, costs, previous, queue, settled + {u}, d, w, via, stamp[u := clock], clock + 1, u)
  {
    SettleLinked(vs, start, costs, previous, via, settled, stamp, clock, u);
  }

  /** Settling `u` at tick `clock` keeps every predecessor settled before
      the vertices it leads to. */
  lemma SettleLinked(vs: map<nat, Node>, start: nat, costs: map<nat, Cost>, previous: map<nat, nat>,
                     via: map<nat, nat>, settled: set<nat>, stamp: map<nat, nat>, clock: nat, u: nat)
    requires u !in settled
    requires Linked(vs, start, costs, previous, via, settled, stamp) && Stamped(settled, stamp, clock)
    ensures Linked(vs, start, costs, previous, via, settled + {u}, stamp[u := clock])
    ensures Stamped(settled + {u}, stamp[u := clock], clock + 1)
  {
    var settled', stamp' := settled + {u}, stamp[u := clock];
    forall v | v in vs && v in previous && previous[v] != UINT_MAX
      ensures previous[v] in settled' && previous[v] in stamp'
      ensures v in settled' ==> v in stamp' && stamp'[previous[v]] < stamp'[v]
    {
      var p := previous[v];
      assert p in stamp && p != u && stamp'[p] == stamp[p] < clock;
      if v != u && v in settled {
        assert stamp'[v] == stamp[v];
      }
    }
    assert stamp'.Keys == settled';
  }

  /** Raising the last key keeps settled costs below it. */
  lemma LaterKey(vs: map<nat, Node>, costs: map<nat, Cost>, settled: set<nat>, last: Cost, d: Cost, except: nat)
    requires forall v :: v in vs ==> v < UINT_MAX
    requires SettledOk(vs, costs, settled, last, UINT_MAX) && AtMost(last, d)
    ensures SettledOk(vs, costs, settled, d, except)
  {
  }

  /** Updating the entries of a vertex keeps every vertex tracked. */
  lemma TrackedKept(vs: map<nat, Node>, costs: map<nat, Cost>, previous: map<nat, nat>, n: nat, c: Cost, p: nat)
    requires Tracked(vs, costs, previous) && n in vs
    ensures Tracked(vs, costs[n := c], previous[n := p])
  {
  }

  /** No edge lowers the start's cost of zero. */
  lemma StartNotLowered(vs: map<nat, Node>, start: nat, costs: map<nat, Cost>, w: map<nat, seq<Arc>>, u: nat, j: nat)
    requires NonNegative(vs) && Witnessed(vs, start, costs, w)
    requires start in costs && costs[start] == Fin(0.0) && u in vs && u in costs
    requires j < |vs[u].edges| && Traversable(vs[u].edges[j]) && vs[u].edges[j].dst in costs
    requires Less(Plus(costs[u], vs[u].edges[j].cost), costs[vs[u].edges[j].dst])
    ensures vs[u].edges[j].dst != start
  {
    assert IsArc(vs, Arc(u, j));
  }

  /** Lowering the cost of the head `n` of the `j`-th edge of the vertex
      `u` being settled, through that edge, keeps the invariant: `n` is
      not settled, its new witness is `u`'s route plus the edge, and its
      predecessor is `u`. */
  lemma Improve(vs: map<nat, Node>, start: nat, costs: map<nat, Cost>, previous: map<nat, nat>,
                queue: seq<Entry>, settled: set<nat>, last: Cost, w: map<nat, seq<Arc>>,
                via: map<nat, nat>, stamp: map<nat, nat>, clock: nat, u: nat, j: nat)
    requires forall v :: v in vs ==> v < UINT_MAX
    requires HeadsIn(vs) && NonNegative(vs)
    requires Inv(vs, start, costs, previous, queue, settled, last, w, via, stamp, clock, u)
    requires u in settled && costs[u] == last
    requires j < |vs[u].edges| && Traversable(vs[u].edges[j])
    requires RelaxedBelow(vs, costs, u, j)
    requires Less(Plus(costs[u], vs[u].edges[j].cost), costs[vs[u].edges[j].dst])
    ensures var e := vs[u].edges[j];
      var n, total := e.dst, Plus(costs[u], e.cost);
      && n != u && n !in settled
      && Inv(vs, start, costs[n := total], previous[n := u], queue + [(total, n)], settled, last,
             w[n := w[u] + [Arc(u, j)]], via[n := j], stamp, clock, u)
      && RelaxedBelow(vs, costs[n := total], u, j + 1)
  {
    var e := vs[u].edges[j];
    var n, total := e.dst, Plus(costs[u], e.cost);
    assert n !in settled;
    StartNotLowered(vs, start, costs, w, u, j);
    TrackedKept(vs, costs, previous, n, total, u);
    ImproveQueue(vs, costs, queue, settled, last, u, j);
    ImproveLinks(vs, start, costs, previous, settled, w, via, stamp, u, j);
    RelaxedBelowLowered(vs, costs, u, j, total);
  }

  /** The queue and settled parts of the invariant after an improvement. */
  lemma ImproveQueue(vs: map<nat, Node>, costs: map<nat, Cost>, queue: seq<Entry>, settled: set<nat>,
                     last: Cost, u: nat, j: nat)
    requires NonNegative(vs) && HeadsIn(vs) && costs.Keys == vs.Keys
    requires QueueOk(vs, costs, queue, last) && Waiting(vs, costs, queue, settled)
    requires SettledOk(vs, costs, settled, last, u)
    requires u in vs && costs[u] == last
    requires j < |vs[u].edges| && Traversable(vs[u].edges[j])
    requires Less(Plus(costs[u], vs[u].edges[j].cost), costs[vs[u].edges[j].dst])
    requires vs[u].edges[j].dst !in settled
    ensures var n, total := vs[u].edges[j].dst, Plus(costs[u], vs[u].edges[j].cost);
      && QueueOk(vs, costs[n := total], queue + [(total, n)], last)
      && Waiting(vs, costs[n := total], queue + [(total, n)], settled)
      && SettledOk(vs, costs[n := total], settled, last, u)
  {
    var n, total := vs[u].edges[j].dst, Plus(costs[u], vs[u].edges[j].cost);
    QueueLowered(vs, costs, queue, last, n, total);
    WaitingLowered(vs, costs, queue, settled, n, total);
    SettledLowered(vs, costs, settled, last, u, n, total);
  }

  /** The witness and predecessor parts of the invariant after an
      improvement. */
  lemma ImproveLinks(vs: map<nat, Node>, start: nat, costs: map<nat, Cost>, previous: map<nat, nat>,
                     settled: set<nat>, w: map<nat, seq<Arc>>, via: map<nat, nat>, stamp: map<nat, nat>,
                     u: nat, j: nat)
    requires forall v :: v in vs ==> v < UINT_MAX
    requires NonNegative(vs) && HeadsIn(vs) && Tracked(vs, costs, previous)
    requires Witnessed(vs, start, costs, w) && Linked(vs, start, costs, previous, via, settled, stamp)
    requires stamp.Keys == settled && u in settled && u in vs
    requires j < |vs[u].edges| && Traversable(vs[u].edges[j])
    requires Less(Plus(costs[u], vs[u].edges[j].cost), costs[vs[u].edges[j].dst])
    requires vs[u].edges[j].dst !in settled
    ensures var n, total := vs[u].edges[j].dst, Plus(costs[u], vs[u].edges[j].cost);
      && Witnessed(vs, start, costs[n := total], w[n := w[u] + [Arc(u, j)]])
      && Linked(vs, start, costs[n := total], previous[n := u], via[n := j], settled, stamp)
  {
    var n, total := vs[u].edges[j].dst, Plus(costs[u], vs[u].edges[j].cost);
    var a := Arc(u, j);
    assert IsArc(vs, a);
    RouteSnoc(vs, start, w[u], u, a);
    WitnessLowered(vs, start, costs, w, n, total, w[u] + [a]);
    LinkLowered(vs, start, costs, previous, via, settled, stamp, a, total);
  }

  /** A lower cost for `n` with a new queue entry at that cost keeps the
      queue in order. */
  lemma QueueLowered(vs: map<nat, Node>, costs: map<nat, Cost>, queue: seq<Entry>, last: Cost, n: nat, total: Cost)
    requires QueueOk(vs, costs, queue, last)
    requires n in vs && n in costs && AtMost(total, costs[n]) && AtMost(last, total)
    ensures QueueOk(vs, costs[n := total], queue + [(total, n)], last)
  {
    var q := queue + [(total, n)];
    forall k | 0 <= k < |q|
      ensures q[k].1 in vs && q[k].1 in costs[n := total]
      ensures AtMost(costs[n := total][q[k].1], q[k].0) && AtMost(last, q[k].0)
    {
      if k < |queue| {
        assert q[k] == queue[k];
      }
    }
  }

  /** A vertex whose cost is lowered waits with its new cost. */
  lemma WaitingLowered(vs: map<nat, Node>, costs: map<nat, Cost>, queue: seq<Entry>, settled: set<nat>, n: nat, total: Cost)
    requires Waiting(vs, costs, queue, settled)
    ensures Waiting(vs, costs[n := total], queue + [(total, n)], settled)
  {
    var q := queue + [(total, n)];
    forall v | v in vs && v !in settled ensures (costs[n := total][v], v) in q {
      if v == n {
        assert q[|queue|] == (total, n);
      } else {
        assert (costs[v], v) in queue;
      }
    }
  }

  /** Lowering the cost of a vertex that is not settled keeps the settled
      vertices below the last key and relaxed. */
  lemma SettledLowered(vs: map<nat, Node>, costs: map<nat, Cost>, settled: set<nat>, last: Cost, u: nat, n: nat, total: Cost)
    requires SettledOk(vs, costs, settled, last, u)
    requires n !in settled && n in costs && AtMost(total, costs[n])
    ensures SettledOk(vs, costs[n := total], settled, last, u)
  {
    forall x | x in settled && x != u ensures Relaxed(vs, costs[n := total], x) {
      assert Relaxed(vs, costs, x);
    }
  }

  /** A lower finite cost for `n` with a route of that cost as its witness
      keeps every finite cost witnessed. */
  lemma WitnessLowered(vs: map<nat, Node>, start: nat, costs: map<nat, Cost>, w: map<nat, seq<Arc>>,
                       n: nat, total: Cost, r: seq<Arc>)
    requires Witnessed(vs, start, costs, w)
    requires total.Fin? && total.r >= 0.0 && IsRoute(vs, start, r, n) && RouteCost(vs, start, r, n) == total.r
    ensures Witnessed(vs, start, costs[n := total], w[n := r])
  {
  }

  /** Making the settled `a.at` the predecessor of the head `n` of the arc
      `a`, at the cost through `a`, keeps the predecessor links. */
  lemma LinkLowered(vs: map<nat, Node>, start: nat, costs: map<nat, Cost>, previous: map<nat, nat>,
                    via: map<nat, nat>, settled: set<nat>, stamp: map<nat, nat>, a: Arc, total: Cost)
    requires forall v :: v in vs ==> v < UINT_MAX
    requires Tracked(vs, costs, previous) && Linked(vs, start, costs, previous, via, settled, stamp)
    requires IsArc(vs, a) && a.at in settled && a.at in stamp && Head(vs, a) in vs
    requires Head(vs, a) !in settled && total.Fin?
    requires total == Plus(costs[a.at], ArcCost(vs, a))
    ensures Linked(vs, start, costs[Head(vs, a) := total], previous[Head(vs, a) := a.at],
                   via[Head(vs, a) := a.index], settled, stamp)
  {
    var n := Head(vs, a);
    var costs', previous', via' := costs[n := total], previous[n := a.at], via[n := a.index];
    forall v | v in vs && v in previous' && previous'[v] != UINT_MAX
      ensures previous'[v] in settled && previous'[v] in stamp && v in via' && v in costs' && previous'[v] in costs'
      ensures IsArc(vs, Arc(previous'[v], via'[v])) && Head(vs, Arc(previous'[v], via'[v])) == v
      ensures costs'[v].Fin?
      ensures costs'[v] == Plus(costs'[previous'[v]], ArcCost(vs, Arc(previous'[v], via'[v])))
      ensures v in settled ==> v in stamp && stamp[previous'[v]] < stamp[v]
    {
      if v != n {
        assert previous[v] in settled;
      }
    }
  }

  /** Once the queue is empty every vertex is settled, no traversable edge
      can lower any cost, finite costs are route costs and no route from
      the start undercuts a cost. */
  lemma Settled(vs: map<nat, Node>, start: nat, costs: map<nat, Cost>, previous: map<nat, nat>,
                settled: set<nat>, last: Cost, w: map<nat, seq<Arc>>, via: map<nat, nat>,
                stamp: map<nat, nat>, clock: nat)
    requires start in vs
    requires Inv(vs, start, costs, previous, [], settled, last, w, via, stamp, clock, UINT_MAX)
    requires forall v :: v in vs ==> v < UINT_MAX
    ensures settled == vs.Keys && stamp.Keys == vs.Keys
    ensures forall v, r :: v in vs && IsRoute(vs, start, r, v) ==> AtMost(costs[v], Fin(RouteCost(vs, start, r, v)))
    ensures forall v :: v in vs && costs[v].Fin? ==> Reaches(vs, start, v)
  {
    forall u, j | u in vs && 0 <= j < |vs[u].edges| && Traversable(vs[u].edges[j])
      ensures vs[u].edges[j].dst in costs
      ensures AtMost(costs[vs[u].edges[j].dst], Plus(costs[u], vs[u].edges[j].cost))
    {
      assert Relaxed(vs, costs, u);
    }
    forall v, r | v in vs && IsRoute(vs, start, r, v)
      ensures AtMost(costs[v], Fin(RouteCost(vs, start, r, v)))
    {
      RelaxedBound(vs, costs, start, r, v);
    }
    forall v | v in vs && costs[v].Fin? ensures Reaches(vs, start, v) {
      assert IsRoute(vs, start, w[v], v);
    }
  }
}
