/** `compute_astar` and `reconstruct_astar_path`: g-scores from the start,
    an open set ordered by f-score (g-score plus the heuristic towards the
    goal), no closed set, and a return as soon as the goal is popped. */
module AStar {
  import opened Records
  import opened Routes
  import Graphs

  // ---------------------------------------------------------------------
  // Why the search stops: a g-score is always the cost of a route with
  // no repeated edge, and there are finitely many of those.

  /** No arc occurs twice in `r`. */
  ghost predicate Distinct(r: seq<Arc>)
  {
    forall i, k :: 0 <= i < k < |r| ==> r[i] != r[k]
  }

  /** The arcs of the graph, traversable or not. */
  ghost function Arcs(vs: map<nat, Node>): set<Arc>
  {
    set u, j | u in vs && 0 <= j < |vs[u].edges| :: Arc(u, j)
  }

  /** Every sequence of distinct arcs drawn from `a`. */
  ghost function DistinctSeqs(a: set<Arc>): set<seq<Arc>>
    decreases |a|
  {
    {[]} + set x, s | x in a && s in DistinctSeqs(a - {x}) :: [x] + s
  }

  lemma {:induction false} InDistinctSeqs(a: set<Arc>, r: seq<Arc>)
    requires forall i :: 0 <= i < |r| ==> r[i] in a
    requires Distinct(r)
    ensures r in DistinctSeqs(a)
    decreases |r|
  {
    if r != [] {
      var x, s := r[0], r[1..];
      assert forall i :: 0 <= i < |s| ==> s[i] == r[i + 1];
      InDistinctSeqs(a - {x}, s);
      assert r == [x] + s;
    }
  }

  /** The costs of the routes from `start` that repeat no arc. */
  ghost function CostSet(vs: map<nat, Node>, start: nat): set<real>
  {
    set r, t | r in DistinctSeqs(Arcs(vs)) && t in vs && IsRoute(vs, start, r, t) :: RouteCost(vs, start, r, t)
  }

  /** The g-scores a vertex can still drop to. */
  ghost function Pending(vs: map<nat, Node>, start: nat, g: map<nat, Cost>): set<(nat, real)>
  {
    set v, c | v in vs && v in g && c in CostSet(vs, start) && Less(Fin(c), g[v]) :: (v, c)
  }

  /** A route without repeated arcs to a vertex is counted by `CostSet`. */
  lemma InCostSet(vs: map<nat, Node>, start: nat, r: seq<Arc>, t: nat)
    requires IsRoute(vs, start, r, t) && Distinct(r) && t in vs
    ensures RouteCost(vs, start, r, t) in CostSet(vs, start)
  {
    RouteArcs(vs, start, r, t);
    InDistinctSeqs(Arcs(vs), r);
  }

  /** Lowering one g-score to a value in `CostSet` removes at least that
      pair from `Pending` and adds none. */
  lemma PendingShrinks(vs: map<nat, Node>, start: nat, g: map<nat, Cost>, n: nat, c: real)
    requires n in vs && n in g && c in CostSet(vs, start) && Less(Fin(c), g[n])
    ensures Pending(vs, start, g[n := Fin(c)]) < Pending(vs, start, g)
  {
    var p, p' := Pending(vs, start, g), Pending(vs, start, g[n := Fin(c)]);
    assert (n, c) in p && (n, c) !in p';
    forall e | e in p' ensures e in p {
      var v, c' := e.0, e.1;
    }
  }

  /** Along a route whose every prefix costs at least the g-score of the
      vertex it leads to, each arc's head has a g-score no greater than
      the whole route's cost. */
  ghost predicate PrefixBound(vs: map<nat, Node>, s: nat, g: map<nat, Cost>, r: seq<Arc>, t: nat)
    requires IsRoute(vs, s, r, t)
    decreases |r|
  {
    r == [] ||
    (t in g && AtMost(g[t], Fin(RouteCost(vs, s, r, t))) && PrefixBound(vs, s, g, r[..|r| - 1], r[|r| - 1].at))
  }

  /** Lower g-scores keep the prefix bounds. */
  lemma {:induction false} PrefixBoundLower(vs: map<nat, Node>, s: nat, g: map<nat, Cost>, g': map<nat, Cost>, r: seq<Arc>, t: nat)
    requires IsRoute(vs, s, r, t) && PrefixBound(vs, s, g, r, t)
    requires forall v :: v in g ==> v in g' && AtMost(g'[v], g[v])
    ensures PrefixBound(vs, s, g', r, t)
    decreases |r|
  {
    if r != [] {
      PrefixBoundLower(vs, s, g, g', r[..|r| - 1], r[|r| - 1].at);
    }
  }

  /** Under the prefix bounds, no arc of the route leads to a vertex whose
      g-score exceeds the route's cost. */
  lemma {:induction false} ArcOnRoute(vs: map<nat, Node>, s: nat, g: map<nat, Cost>, r: seq<Arc>, t: nat, a: Arc)
    requires NonNegative(vs)
    requires IsRoute(vs, s, r, t) && PrefixBound(vs, s, g, r, t) && a in r
    ensures IsArc(vs, a) && Head(vs, a) in g && AtMost(g[Head(vs, a)], Fin(RouteCost(vs, s, r, t)))
    decreases |r|
  {
    var last, init := r[|r| - 1], r[..|r| - 1];
    if a != last {
      assert a in init by {
        var i :| 0 <= i < |r| && r[i] == a;
        assert init[i] == a;
      }
      ArcOnRoute(vs, s, g, init, last.at, a);
    }
  }

  // ---------------------------------------------------------------------
  // Walking `came_from` back from the goal

  /** `p` is a `came_from` chain: each element is in the map and maps to
      the one before it, and the first maps to a position outside it. */
  ghost predicate IsChain(came: map<nat, nat>, p: seq<nat>)
  {
    && |p| >= 1
    && (forall i :: 0 <= i < |p| ==> p[i] in came)
    && (forall i :: 0 < i < |p| ==> came[p[i]] == p[i - 1])
    && came[p[0]] !in came
  }

  /** `reconstruct_astar_path`: the positions met while following
      `came_from` back from `current`, oldest first, without the position
      where the walk stops; empty when `current` has no entry. The ghost
      `rank` falls along every link, so the walk ends. */
  method ReconstructAStarPath(came: map<nat, nat>, current: nat, ghost rank: map<nat, nat>) returns (path: seq<nat>)
    requires forall v :: v in came ==> v in rank && came[v] in rank && rank[came[v]] < rank[v]
    ensures current !in came ==> path == []
    ensures current in came ==> IsChain(came, path) && path[|path| - 1] == current
  {
    var rev: seq<nat> := [];
    var cur := current;
    while cur in came
      invariant rev == [] ==> cur == current
      invariant forall k :: 0 <= k < |rev| ==> rev[k] in came
      invariant rev != [] ==> rev[0] == current && came[rev[|rev| - 1]] == cur
      invariant forall k :: 0 <= k < |rev| - 1 ==> came[rev[k]] == rev[k + 1]
      decreases if cur in rank then rank[cur] + 1 else 0
    {
      rev := rev + [cur];
      cur := came[cur];
    }
    path := rev;
    if path != [] {
      path := Reverse(path);
    }
  }

  /** The arcs from `came_from` and the edge indices `via` along a chain. */
  ghost function ChainArcs(came: map<nat, nat>, via: map<nat, nat>, p: seq<nat>): (r: seq<Arc>)
    requires forall i :: 0 <= i < |p| ==> p[i] in came && p[i] in via
    ensures |r| == |p|
  {
    if p == [] then []
    else ChainArcs(came, via, p[..|p| - 1]) + [Arc(came[p[|p| - 1]], via[p[|p| - 1]])]
  }

  /** A chain whose links are edges of the graph, starting from `s`, is a
      route from `s` whose positions are `s` followed by the chain. */
  lemma {:induction false} ChainIsRoute(vs: map<nat, Node>, came: map<nat, nat>, via: map<nat, nat>, s: nat, p: seq<nat>)
    requires |p| >= 1
    requires forall i :: 0 <= i < |p| ==> p[i] in came && p[i] in via
    requires forall i :: 0 <= i < |p| ==> IsArc(vs, Arc(came[p[i]], via[p[i]])) && Head(vs, Arc(came[p[i]], via[p[i]])) == p[i]
    requires forall i :: 0 < i < |p| ==> came[p[i]] == p[i - 1]
    requires came[p[0]] == s
    ensures IsRoute(vs, s, ChainArcs(came, via, p), p[|p| - 1])
    ensures Positions(vs, s, ChainArcs(came, via, p), p[|p| - 1]) == [s] + p
    decreases |p|
  {
    var init, x := p[..|p| - 1], p[|p| - 1];
    var a := Arc(came[x], via[x]);
    if init == [] {
      RouteSnoc(vs, s, [], s, a);
      assert ChainArcs(came, via, init) == [];
    } else {
      ChainIsRoute(vs, came, via, s, init);
      assert came[x] == init[|init| - 1];
      RouteSnoc(vs, s, ChainArcs(came, via, init), init[|init| - 1], a);
      assert [s] + p == [s] + init + [x];
    }
  }

  // ---------------------------------------------------------------------
  // The invariant of the search loop, piece by piece. `h` stands for
  // `get_heuristic`: any function of two positions.

  /** Every vertex has a g- and an f-score, and the f-score is the g-score
      plus the heuristic towards the goal. */
  ghost predicate Scored(vs: map<nat, Node>, h: (nat, nat) -> real, goal: nat, g: map<nat, Cost>, f: map<nat, Cost>)
  {
    && g.Keys == vs.Keys && f.Keys == vs.Keys
    && forall v :: v in vs ==> f[v] == Plus(g[v], h(v, goal))
  }

  /** Open-set entries name vertices, and a finite key belongs to a vertex
      whose g-score is finite. */
  ghost predicate Keyed(vs: map<nat, Node>, g: map<nat, Cost>, queue: seq<Entry>)
  {
    forall k :: 0 <= k < |queue| ==>
      queue[k].1 in vs && queue[k].1 in g && (queue[k].0.Fin? ==> g[queue[k].1].Fin?)
  }

  /** A vertex with a finite g-score waits in the open set with its
      f-score or has had all its edges relaxed; those in `except` may be
      relaxing right now. */
  ghost predicate Open(vs: map<nat, Node>, g: map<nat, Cost>, f: map<nat, Cost>, queue: seq<Entry>, except: set<nat>)
  {
    forall v :: v in vs && v !in except && v in g && v in f && g[v].Fin? ==>
      (f[v], v) in queue || Relaxed(vs, g, v)
  }

  /** A finite g-score is the cost of a route from the start that repeats
      no arc and whose prefixes cost no less than the g-scores of the
      vertices they reach. */
  ghost predicate Witnessed(vs: map<nat, Node>, start: nat, g: map<nat, Cost>, w: map<nat, seq<Arc>>)
  {
    forall v :: v in vs && v in g && g[v].Fin? ==>
      && v in w && IsRoute(vs, start, w[v], v)
      && RouteCost(vs, start, w[v], v) == g[v].r && g[v].r >= 0.0
      && Distinct(w[v]) && PrefixBound(vs, start, g, w[v], v)
  }

  /** The `came_from` entry of `v`: edge `via[v]` of `came[v]` leads to `v`,
      both g-scores are finite, the predecessor's plus the edge is no more
      than `v`'s, and the predecessor is lower in (g-score, stamp). */
  ghost predicate Link(vs: map<nat, Node>, g: map<nat, Cost>, came: map<nat, nat>, via: map<nat, nat>,
                       stamp: map<nat, nat>, v: nat)
    requires v in came
  {
    var p := came[v];
    && v in vs && p in vs && v in g && p in g && v in via && v in stamp && p in stamp
    && IsArc(vs, Arc(p, via[v])) && Head(vs, Arc(p, via[v])) == v
    && g[v].Fin? && g[p].Fin? && g[p].r + ArcCost(vs, Arc(p, via[v])) <= g[v].r
    && (g[p].r < g[v].r || stamp[p] < stamp[v])
  }

  /** Every `came_from` entry is a link; exactly the vertices other than
      the start with a finite g-score have one; those with a finite
      g-score have a stamp below the clock. */
  ghost predicate Linked(vs: map<nat, Node>, start: nat, g: map<nat, Cost>, came: map<nat, nat>,
                         via: map<nat, nat>, stamp: map<nat, nat>, clock: nat)
  {
    && (forall v :: v in came ==> Link(vs, g, came, via, stamp, v))
    && (forall v :: v in vs && v in g && g[v].Fin? && v != start ==> v in came)
    && start !in came
    && (forall v :: v in vs && v in g && g[v].Fin? ==> v in stamp)
    && (forall v :: v in stamp ==> stamp[v] < clock)
  }

  /** While the goal is a vertex it has an entry in the open set. */
  ghost predicate GoalWaits(vs: map<nat, Node>, goal: nat, queue: seq<Entry>)
  {
    goal in vs ==> exists k :: 0 <= k < |queue| && queue[k].1 == goal
  }

  /** All of the above, with the start's g-score zero. */
  ghost predicate Inv(vs: map<nat, Node>, h: (nat, nat) -> real, start: nat, goal: nat, g: map<nat, Cost>,
                      f: map<nat, Cost>, came: map<nat, nat>, queue: seq<Entry>, w: map<nat, seq<Arc>>,
                      via: map<nat, nat>, stamp: map<nat, nat>, clock: nat, except: set<nat>)
  {
    && Scored(vs, h, goal, g, f)
    && Keyed(vs, g, queue)
    && Open(vs, g, f, queue, except)
    && Witnessed(vs, start, g, w)
    && Linked(vs, start, g, came, via, stamp, clock)
    && (start in vs ==> g[start] == Fin(0.0))
  }

  // ---------------------------------------------------------------------
  // The search

  /** The search from `start` towards `goal`. A goal that is not a vertex
      is never popped and the path is empty; otherwise the path is `start`
      followed by the `came_from` chain of the goal when it is popped:
      the positions of a route when the goal is reachable (just `[start]`
      when the goal is the start), and `[start]` when it is not. */
  method Solve(vs: map<nat, Node>, h: (nat, nat) -> real, start: nat, goal: nat)
    returns (path: seq<nat>, ghost route: seq<Arc>)
    requires start in vs ==> goal in vs
    requires HeadsIn(vs) && NonNegative(vs)
    ensures goal !in vs ==> path == []
    ensures goal in vs && Reaches(vs, start, goal) ==>
      IsRoute(vs, start, route, goal) && path == Positions(vs, start, route, goal)
    ensures goal in vs && !Reaches(vs, start, goal) ==> path == [start]
    ensures goal in vs && start == goal ==> path == [start]
  {
    var g, f, queue := Seed(vs, h, start, goal);
    path, route := Search(vs, h, start, goal, g, f, queue);
  }

  /** The main loop of the search, from the seeded scores: pop the least
      open entry, finish at the goal, expand any other vertex. */
  method Search(vs: map<nat, Node>, h: (nat, nat) -> real, start: nat, goal: nat,
                g0: map<nat, Cost>, f0: map<nat, Cost>, open: seq<Entry>)
    returns (path: seq<nat>, ghost route: seq<Arc>)
    requires start in vs ==> goal in vs
    requires HeadsIn(vs) && NonNegative(vs)
    requires Inv(vs, h, start, goal, g0, f0, map[], open, map[start := []], map[],
                 if start in vs then map[start := 0] else map[], 1, {})
    requires GoalWaits(vs, goal, open)
    ensures goal !in vs ==> path == []
    ensures goal in vs && Reaches(vs, start, goal) ==>
      IsRoute(vs, start, route, goal) && path == Positions(vs, start, route, goal)
    ensures goal in vs && !Reaches(vs, start, goal) ==> path == [start]
    ensures goal in vs && start == goal ==> path == [start]
  {
    route := [];
    var g: map<nat, Cost>, f: map<nat, Cost>, queue: seq<Entry> := g0, f0, open;
    var came: map<nat, nat> := map[];
    ghost var w: map<nat, seq<Arc>> := map[start := []];
    ghost var via: map<nat, nat> := map[];
    ghost var stamp: map<nat, nat> := if start in vs then map[start := 0] else map[];
    ghost var clock: nat := 1;
    while queue != []
      invariant Inv(vs, h, start, goal, g, f, came, queue, w, via, stamp, clock, {})
      invariant GoalWaits(vs, goal, queue)
      decreases Pending(vs, start, g), |queue|
    {
      var i := MinIndex(queue);
      var current := queue[i].1;
      ghost var before := queue;
      queue := RemoveAt(queue, i);
      Popped(vs, h, start, goal, g, f, came, before, i, queue, w, via, stamp, clock);
      if current == goal {
        if g[goal].Inf? {
          PoppedLast(vs, g, goal, before, i, queue);
        }
        path, route := Finish(vs, h, start, goal, g, f, came, queue, w, via, stamp, clock);
        return;
      }
      g, f, came, queue, w, via, stamp, clock := Expand(vs, h, start, goal, current, g, f, came, queue, w, via, stamp, clock);
    }
    path := [];
  }

  /** The state the search starts from: `g` is zero at the start and
      infinite elsewhere, `f` is the heuristic at the start and infinite
      elsewhere, and the open set holds exactly one entry `(f[v], v)` per
      vertex. */
  ghost predicate Initial(vs: map<nat, Node>, h: (nat, nat) -> real, start: nat, goal: nat,
                          g: map<nat, Cost>, f: map<nat, Cost>, queue: seq<Entry>)
  {
    && g.Keys == vs.Keys && f.Keys == vs.Keys
    && (forall v :: v in vs ==> g[v] == (if v == start then Fin(0.0) else Inf))
    && (forall v :: v in vs ==> f[v] == (if v == start then Fin(h(start, goal)) else Inf))
    && |queue| == |vs.Keys|
    && (forall v :: v in vs ==> (f[v], v) in queue)
    && (forall k :: 0 <= k < |queue| ==> queue[k].1 in vs && queue[k].0 == f[queue[k].1])
  }

  /** The initial scores: zero and the heuristic for the start, infinity
      for every other vertex, and one open-set entry per vertex. */
  method Seed(vs: map<nat, Node>, h: (nat, nat) -> real, start: nat, goal: nat)
    returns (g: map<nat, Cost>, f: map<nat, Cost>, queue: seq<Entry>)
    ensures Inv(vs, h, start, goal, g, f, map[], queue, map[start := []], map[],
                if start in vs then map[start := 0] else map[], 1, {})
    ensures GoalWaits(vs, goal, queue)
    ensures Initial(vs, h, start, goal, g, f, queue)
  {
    g, f, queue := map[], map[], [];
    var todo := vs.Keys;
    while todo != {}
      invariant todo <= vs.Keys
      invariant g.Keys == vs.Keys - todo && f.Keys == vs.Keys - todo
      invariant forall v :: v in g ==> g[v] == (if v == start then Fin(0.0) else Inf)
      invariant forall v :: v in f ==> f[v] == (if v == start then Fin(h(start, goal)) else Inf)
      invariant forall k :: 0 <= k < |queue| ==> queue[k].1 in g && queue[k].0 == f[queue[k].1]
      invariant forall v :: v in f ==> (f[v], v) in queue
      invariant |queue| + |todo| == |vs.Keys|
    {
      var v :| v in todo;
      g := g[v := if v == start then Fin(0.0) else Inf];
      f := f[v := if v == start then Fin(h(start, goal)) else Inf];
      queue := queue + [(f[v], v)];
      todo := todo - {v};
    }
    assert Initial(vs, h, start, goal, g, f, queue);
    Seeded(vs, h, start, goal, g, f, queue);
  }

  /** The initial state satisfies the loop invariant, and the goal, when it
      is a vertex, waits in the open set. */
  lemma Seeded(vs: map<nat, Node>, h: (nat, nat) -> real, start: nat, goal: nat,
               g: map<nat, Cost>, f: map<nat, Cost>, queue: seq<Entry>)
    requires Initial(vs, h, start, goal, g, f, queue)
    ensures Inv(vs, h, start, goal, g, f, map[], queue, map[start := []], map[],
                if start in vs then map[start := 0] else map[], 1, {})
    ensures GoalWaits(vs, goal, queue)
  {
    if goal in vs {
      var k :| 0 <= k < |queue| && queue[k] == (f[goal], goal);
    }
  }

  /** After popping the least entry: its position is a vertex, the others
      keep waiting, and the goal still waits unless it was popped. */
  lemma Popped(vs: map<nat, Node>, h: (nat, nat) -> real, start: nat, goal: nat, g: map<nat, Cost>,
               f: map<nat, Cost>, came: map<nat, nat>, before: seq<Entry>, i: nat, after: seq<Entry>,
               w: map<nat, seq<Arc>>, via: map<nat, nat>, stamp: map<nat, nat>, clock: nat)
    requires |before| > 0 && i == MinIndex(before) && after == RemoveAt(before, i)
    requires Inv(vs, h, start, goal, g, f, came, before, w, via, stamp, clock, {})
    requires GoalWaits(vs, goal, before)
    ensures before[i].1 in vs
    ensures Inv(vs, h, start, goal, g, f, came, after, w, via, stamp, clock, {before[i].1})
    ensures before[i].1 != goal ==> GoalWaits(vs, goal, after)
  {
    var u := before[i].1;
    RemoveAtFrom(before, i);
    forall v | v in vs && v != u && v in g && v in f && g[v].Fin? && (f[v], v) in before
      ensures (f[v], v) in after
    {
      RemoveAtKeeps(before, i, (f[v], v));
    }
    if u != goal && goal in vs {
      var k :| 0 <= k < |before| && before[k].1 == goal;
      RemoveAtKeeps(before, i, before[k]);
      var m :| 0 <= m < |after| && after[m] == before[k];
    }
  }

  /** The loop over the edges of the popped vertex `current`. Afterwards
      it is relaxed too, and either some g-score has dropped or nothing
      changed. */
  method Expand(vs: map<nat, Node>, h: (nat, nat) -> real, start: nat, goal: nat, current: nat,
                g0: map<nat, Cost>, f0: map<nat, Cost>, came0: map<nat, nat>, queue0: seq<Entry>,
                ghost w0: map<nat, seq<Arc>>, ghost via0: map<nat, nat>, ghost stamp0: map<nat, nat>, ghost clock0: nat)
    returns (g: map<nat, Cost>, f: map<nat, Cost>, came: map<nat, nat>, queue: seq<Entry>,
             ghost w: map<nat, seq<Arc>>, ghost via: map<nat, nat>, ghost stamp: map<nat, nat>, ghost clock: nat)
    requires HeadsIn(vs) && NonNegative(vs) && current in vs
    requires Inv(vs, h, start, goal, g0, f0, came0, queue0, w0, via0, stamp0, clock0, {current})
    requires GoalWaits(vs, goal, queue0)
    ensures Inv(vs, h, start, goal, g, f, came, queue, w, via, stamp, clock, {})
    ensures GoalWaits(vs, goal, queue)
    ensures Pending(vs, start, g) < Pending(vs, start, g0) || (g == g0 && queue == queue0)
  {
    g, f, came, queue, w, via, stamp, clock := g0, f0, came0, queue0, w0, via0, stamp0, clock0;
    for j := 0 to |vs[current].edges|
      invariant Inv(vs, h, start, goal, g, f, came, queue, w, via, stamp, clock, {current})
      invariant GoalWaits(vs, goal, queue)
      invariant RelaxedBelow(vs, g, current, j)
      invariant Pending(vs, start, g) < Pending(vs, start, g0) || (g == g0 && queue == queue0)
    {
      ghost var g1, queue1 := g, queue;
      g, f, came, queue, w, via, stamp, clock := RelaxEdge(vs, h, start, goal, current, j, g, f, came, queue, w, via, stamp, clock);
    }
    assert Relaxed(vs, g, current);
  }

  /** One round of the edge loop: edge `j` of `u`. A traversable edge that
      lowers the g-score of its destination records `u` in `came_from`,
      sets the new g- and f-scores and pushes the destination. */
  method RelaxEdge(vs: map<nat, Node>, h: (nat, nat) -> real, start: nat, goal: nat, u: nat, j: nat,
                   g0: map<nat, Cost>, f0: map<nat, Cost>, came0: map<nat, nat>, queue0: seq<Entry>,
                   ghost w0: map<nat, seq<Arc>>, ghost via0: map<nat, nat>, ghost stamp0: map<nat, nat>, ghost clock0: nat)
    returns (g: map<nat, Cost>, f: map<nat, Cost>, came: map<nat, nat>, queue: seq<Entry>,
             ghost w: map<nat, seq<Arc>>, ghost via: map<nat, nat>, ghost stamp: map<nat, nat>, ghost clock: nat)
    requires HeadsIn(vs) && NonNegative(vs) && u in vs && j < |vs[u].edges|
    requires Inv(vs, h, start, goal, g0, f0, came0, queue0, w0, via0, stamp0, clock0, {u})
    requires GoalWaits(vs, goal, queue0)
    requires RelaxedBelow(vs, g0, u, j)
    ensures Inv(vs, h, start, goal, g, f, came, queue, w, via, stamp, clock, {u})
    ensures GoalWaits(vs, goal, queue)
    ensures RelaxedBelow(vs, g, u, j + 1)
    ensures Pending(vs, start, g) < Pending(vs, start, g0) || (g == g0 && queue == queue0)
  {
    g, f, came, queue, w, via, stamp, clock := g0, f0, came0, queue0, w0, via0, stamp0, clock0;
    var e := vs[u].edges[j];
    if !Traversable(e) {
      RelaxedBelowKept(vs, g, u, j);
      return;
    }
    var n := e.dst;
    var tentative := Plus(g[u], e.cost);
    if Less(tentative, g[n]) {
      Improve(vs, h, start, goal, g, f, came, queue, w, via, stamp, clock, u, j);
      came := came[n := u];
      g := g[n := tentative];
      f := f[n := Plus(g[n], h(n, goal))];
      queue := queue + [(f[n], n)];
      w := w[n := w[u] + [Arc(u, j)]];
      via := via[n := j];
      stamp := stamp[n := clock];
      clock := clock + 1;
    } else {
      RelaxedBelowKept(vs, g, u, j);
    }
  }

  /** Lowering the g-score of the destination `n` of edge `j` of `u`
      through that edge keeps the invariant and shrinks `Pending`. */
  lemma Improve(vs: map<nat, Node>, h: (nat, nat) -> real, start: nat, goal: nat, g: map<nat, Cost>,
                f: map<nat, Cost>, came: map<nat, nat>, queue: seq<Entry>, w: map<nat, seq<Arc>>,
                via: map<nat, nat>, stamp: map<nat, nat>, clock: nat, u: nat, j: nat)
    requires HeadsIn(vs) && NonNegative(vs) && u in vs && j < |vs[u].edges|
    requires Inv(vs, h, start, goal, g, f, came, queue, w, via, stamp, clock, {u})
    requires GoalWaits(vs, goal, queue)
    requires RelaxedBelow(vs, g, u, j)
    requires Traversable(vs[u].edges[j])
    requires Less(Plus(g[u], vs[u].edges[j].cost), g[vs[u].edges[j].dst])
    ensures var n, t := vs[u].edges[j].dst, Plus(g[u], vs[u].edges[j].cost);
      var g', f' := g[n := t], f[n := Plus(t, h(n, goal))];
      && Inv(vs, h, start, goal, g', f', came[n := u], queue + [(f'[n], n)], w[n := w[u] + [Arc(u, j)]],
             via[n := j], stamp[n := clock], clock + 1, {u})
      && GoalWaits(vs, goal, queue + [(f'[n], n)])
      && RelaxedBelow(vs, g', u, j + 1)
      && Pending(vs, start, g') < Pending(vs, start, g)
  {
    var e := vs[u].edges[j];
    var n, t := e.dst, Plus(g[u], e.cost);
    assert n in vs && g[u].Fin? && t.Fin?;
    assert t.r >= g[u].r >= 0.0;
    assert n != u;
    assert start in vs ==> n != start;
    ImproveOpen(vs, h, start, goal, g, f, queue, u, n, t);
    ImproveWitness(vs, start, g, w, u, j);
    ImproveLinks(vs, start, g, came, via, stamp, clock, u, j);
    InCostSet(vs, start, w[u] + [Arc(u, j)], n);
    PendingShrinks(vs, start, g, n, t.r);
    RelaxedBelowLowered(vs, g, u, j, t);
  }

  /** The score, open-set and goal parts of the invariant after lowering
      the g-score of `n` to `t` and pushing it with its new f-score. */
  lemma ImproveOpen(vs: map<nat, Node>, h: (nat, nat) -> real, start: nat, goal: nat, g: map<nat, Cost>,
                    f: map<nat, Cost>, queue: seq<Entry>, u: nat, n: nat, t: Cost)
    requires Scored(vs, h, goal, g, f) && Keyed(vs, g, queue) && Open(vs, g, f, queue, {u})
    requires GoalWaits(vs, goal, queue) && (start in vs ==> g[start] == Fin(0.0))
    requires n in vs && n != u && (start in vs ==> n != start) && t.Fin? && AtMost(t, g[n])
    ensures var g', f' := g[n := t], f[n := Plus(t, h(n, goal))];
      var q' := queue + [(f'[n], n)];
      && Scored(vs, h, goal, g', f') && Keyed(vs, g', q') && Open(vs, g', f', q', {u})
      && GoalWaits(vs, goal, q') && (start in vs ==> g'[start] == Fin(0.0))
  {
    var g', f' := g[n := t], f[n := Plus(t, h(n, goal))];
    var q' := queue + [(f'[n], n)];
    assert q'[|queue|] == (f'[n], n);
    forall k | 0 <= k < |queue| ensures q'[k] == queue[k] {
    }
    forall v | v in vs && v != u && v in g' && v in f' && g'[v].Fin?
      ensures (f'[v], v) in q' || Relaxed(vs, g', v)
    {
      if v != n && (f[v], v) !in queue {
        assert Relaxed(vs, g, v);
      }
    }
    if goal in vs {
      var k :| 0 <= k < |queue| && queue[k].1 == goal;
      assert q'[k].1 == goal;
    }
  }

  /** The witness part of the invariant: the destination's new witness is
      the witness of `u` plus the edge, which it did not contain. */
  lemma ImproveWitness(vs: map<nat, Node>, start: nat, g: map<nat, Cost>, w: map<nat, seq<Arc>>, u: nat, j: nat)
    requires HeadsIn(vs) && NonNegative(vs) && u in vs && j < |vs[u].edges| && g.Keys == vs.Keys
    requires Witnessed(vs, start, g, w)
    requires Traversable(vs[u].edges[j])
    requires Less(Plus(g[u], vs[u].edges[j].cost), g[vs[u].edges[j].dst])
    ensures var n, t := vs[u].edges[j].dst, Plus(g[u], vs[u].edges[j].cost);
      && Witnessed(vs, start, g[n := t], w[n := w[u] + [Arc(u, j)]])
      && IsRoute(vs, start, w[u] + [Arc(u, j)], n) && Distinct(w[u] + [Arc(u, j)])
      && RouteCost(vs, start, w[u] + [Arc(u, j)], n) == t.r
  {
    var n, t := vs[u].edges[j].dst, Plus(g[u], vs[u].edges[j].cost);
    var g' := g[n := t];
    forall v | v in g ensures v in g' && AtMost(g'[v], g[v]) {
    }
    NewWitness(vs, start, g, w, u, j);
    WitnessesLower(vs, start, g, g', w);
  }

  /** The destination's new witness: the witness of `u` plus the edge, a
      route without repeated arcs whose prefixes respect the new g-scores. */
  lemma NewWitness(vs: map<nat, Node>, start: nat, g: map<nat, Cost>, w: map<nat, seq<Arc>>, u: nat, j: nat)
    requires HeadsIn(vs) && NonNegative(vs) && u in vs && j < |vs[u].edges| && g.Keys == vs.Keys
    requires Witnessed(vs, start, g, w)
    requires Traversable(vs[u].edges[j])
    requires Less(Plus(g[u], vs[u].edges[j].cost), g[vs[u].edges[j].dst])
    ensures var n, t := vs[u].edges[j].dst, Plus(g[u], vs[u].edges[j].cost);
      && IsRoute(vs, start, w[u] + [Arc(u, j)], n) && Distinct(w[u] + [Arc(u, j)])
      && RouteCost(vs, start, w[u] + [Arc(u, j)], n) == t.r && t.r >= 0.0
      && PrefixBound(vs, start, g[n := t], w[u] + [Arc(u, j)], n)
  {
    var e := vs[u].edges[j];
    var n, t := e.dst, Plus(g[u], e.cost);
    var a := Arc(u, j);
    var r := w[u] + [a];
    var g' := g[n := t];
    assert IsArc(vs, a) && Head(vs, a) == n;
    if a in w[u] {
      ArcOnRoute(vs, start, g, w[u], u, a);
      assert false;
    }
    RouteSnoc(vs, start, w[u], u, a);
    assert Distinct(r);
    forall v | v in g ensures v in g' && AtMost(g'[v], g[v]) {
    }
    PrefixBoundLower(vs, start, g, g', w[u], u);
    assert r[..|w[u]|] == w[u];
  }

  /** Lower g-scores keep the prefix bounds of every witness. */
  lemma WitnessesLower(vs: map<nat, Node>, start: nat, g: map<nat, Cost>, g': map<nat, Cost>, w: map<nat, seq<Arc>>)
    requires Witnessed(vs, start, g, w)
    requires forall v :: v in g ==> v in g' && AtMost(g'[v], g[v])
    ensures forall v :: v in vs && v in g && g[v].Fin? ==> PrefixBound(vs, start, g', w[v], v)
  {
    forall v | v in vs && v in g && g[v].Fin?
      ensures PrefixBound(vs, start, g', w[v], v)
    {
      PrefixBoundLower(vs, start, g, g', w[v], v);
    }
  }

  /** The `came_from` part of the invariant: `u` becomes the destination's
      predecessor with a fresh stamp, and links into the destination stay
      strict because its g-score dropped. */
  lemma ImproveLinks(vs: map<nat, Node>, start: nat, g: map<nat, Cost>, came: map<nat, nat>,
                     via: map<nat, nat>, stamp: map<nat, nat>, clock: nat, u: nat, j: nat)
    requires HeadsIn(vs) && NonNegative(vs) && u in vs && j < |vs[u].edges| && g.Keys == vs.Keys
    requires Linked(vs, start, g, came, via, stamp, clock)
    requires Traversable(vs[u].edges[j])
    requires Less(Plus(g[u], vs[u].edges[j].cost), g[vs[u].edges[j].dst])
    requires vs[u].edges[j].dst != u && (start in vs ==> vs[u].edges[j].dst != start)
    ensures var n, t := vs[u].edges[j].dst, Plus(g[u], vs[u].edges[j].cost);
      Linked(vs, start, g[n := t], came[n := u], via[n := j], stamp[n := clock], clock + 1)
  {
    var e := vs[u].edges[j];
    var n, t := e.dst, Plus(g[u], e.cost);
    var g', came', via', stamp' := g[n := t], came[n := u], via[n := j], stamp[n := clock];
    assert IsArc(vs, Arc(u, j));
    assert n != start;
    forall v | v in came' ensures Link(vs, g', came', via', stamp', v) {
      if v != n {
        assert Link(vs, g, came, via, stamp, v);
        if came[v] == n {
          assert vs[came[v]].edges[via[v]].cost >= 0.0;
        }
      }
    }
  }

  /** Popping the goal ends the search: the path is the start followed by
      the goal's `came_from` chain. */
  method Finish(vs: map<nat, Node>, h: (nat, nat) -> real, start: nat, goal: nat, g: map<nat, Cost>,
                f: map<nat, Cost>, came: map<nat, nat>, ghost after: seq<Entry>,
                ghost w: map<nat, seq<Arc>>, ghost via: map<nat, nat>, ghost stamp: map<nat, nat>, ghost clock: nat)
    returns (path: seq<nat>, ghost route: seq<Arc>)
    requires HeadsIn(vs) && NonNegative(vs) && goal in vs
    requires Inv(vs, h, start, goal, g, f, came, after, w, via, stamp, clock, {goal})
    requires g[goal].Inf? ==> forall k :: 0 <= k < |after| ==> after[k].0.Inf?
    ensures Reaches(vs, start, goal) ==> IsRoute(vs, start, route, goal) && path == Positions(vs, start, route, goal)
    ensures !Reaches(vs, start, goal) ==> path == [start]
    ensures start == goal ==> path == [start]
  {
    ghost var rank := Ranks(vs, g, stamp);
    RanksFall(vs, start, g, came, via, stamp, clock);
    var p := ReconstructAStarPath(came, goal, rank);
    path := [start] + p;
    route := [];
    if g[goal].Inf? {
      Unreached(vs, h, start, goal, g, f, after);
    } else if goal != start {
      var x := came[p[0]];
      assert Link(vs, g, came, via, stamp, p[0]);
      assert x == start;
      forall k | 0 <= k < |p|
        ensures p[k] in via && IsArc(vs, Arc(came[p[k]], via[p[k]])) && Head(vs, Arc(came[p[k]], via[p[k]])) == p[k]
      {
        assert Link(vs, g, came, via, stamp, p[k]);
      }
      ChainIsRoute(vs, came, via, start, p);
      route := ChainArcs(came, via, p);
    }
  }

  /** When the goal is popped with an infinite key, every key left in the
      open set is infinite too. */
  lemma PoppedLast(vs: map<nat, Node>, g: map<nat, Cost>, goal: nat, before: seq<Entry>, i: nat, after: seq<Entry>)
    requires |before| > 0 && i == MinIndex(before) && after == RemoveAt(before, i) && before[i].1 == goal
    requires Keyed(vs, g, before) && g[goal].Inf?
    ensures forall k :: 0 <= k < |after| ==> after[k].0.Inf?
  {
    RemoveAtFrom(before, i);
    forall k | 0 <= k < |after| ensures after[k].0.Inf? {
      var m :| 0 <= m < |before| && before[m] == after[k];
      assert EntryAtMost(before[i], before[m]);
    }
  }

  /** With the goal's g-score infinite and every key left infinite, every
      vertex with a finite g-score is relaxed, so no route reaches the
      goal. */
  lemma Unreached(vs: map<nat, Node>, h: (nat, nat) -> real, start: nat, goal: nat, g: map<nat, Cost>,
                  f: map<nat, Cost>, after: seq<Entry>)
    requires HeadsIn(vs)
    requires forall k :: 0 <= k < |after| ==> after[k].0.Inf?
    requires Scored(vs, h, goal, g, f) && Open(vs, g, f, after, {goal})
    requires start in vs ==> g[start] == Fin(0.0)
    requires goal in vs && g[goal].Inf?
    ensures !Reaches(vs, start, goal)
  {
    forall u, j | u in vs && 0 <= j < |vs[u].edges| && Traversable(vs[u].edges[j])
      ensures vs[u].edges[j].dst in g && AtMost(g[vs[u].edges[j].dst], Plus(g[u], vs[u].edges[j].cost))
    {
      if g[u].Fin? {
        assert (f[u], u) !in after;
        assert Relaxed(vs, g, u);
      }
    }
    if r :| IsRoute(vs, start, r, goal) {
      RouteStartsIn(vs, start, r, goal);
      RelaxedBound(vs, g, start, r, goal);
      assert false;
    }
  }

  /** Lexicographically below in (g-score, stamp). */
  ghost predicate Below(g: map<nat, Cost>, stamp: map<nat, nat>, x: nat, v: nat)
    requires x in g && v in g && x in stamp && v in stamp && g[x].Fin? && g[v].Fin?
  {
    g[x].r < g[v].r || (g[x].r == g[v].r && stamp[x] < stamp[v])
  }

  /** The vertices below `v` in (g-score, stamp). */
  ghost function Lower(vs: map<nat, Node>, g: map<nat, Cost>, stamp: map<nat, nat>, v: nat): set<nat>
    requires v in g && v in stamp && g[v].Fin?
  {
    set x | x in vs && x in g && x in stamp && g[x].Fin? && Below(g, stamp, x, v)
  }

  /** The number of vertices below each stamped vertex with a finite
      g-score. */
  ghost function Ranks(vs: map<nat, Node>, g: map<nat, Cost>, stamp: map<nat, nat>): map<nat, nat>
  {
    map v | v in vs && v in g && v in stamp && g[v].Fin? :: |Lower(vs, g, stamp, v)|
  }

  /** Everything below `p` is below `v` too, and so is `p`: fewer
      vertices are below `p` than below `v`. */
  lemma LowerShrinks(vs: map<nat, Node>, g: map<nat, Cost>, stamp: map<nat, nat>, p: nat, v: nat)
    requires p in vs && p in g && p in stamp && g[p].Fin?
    requires v in g && v in stamp && g[v].Fin?
    requires Below(g, stamp, p, v)
    ensures |Lower(vs, g, stamp, p)| < |Lower(vs, g, stamp, v)|
  {
    var lp, lv := Lower(vs, g, stamp, p), Lower(vs, g, stamp, v);
    assert lp + {p} <= lv;
    assert p !in lp;
    assert |lp + {p}| == |lp| + 1;
    assert lv == (lp + {p}) + (lv - (lp + {p}));
  }

  /** The rank falls along every `came_from` link, so the chain walk ends. */
  lemma RanksFall(vs: map<nat, Node>, start: nat, g: map<nat, Cost>, came: map<nat, nat>,
                  via: map<nat, nat>, stamp: map<nat, nat>, clock: nat)
    requires NonNegative(vs) && Linked(vs, start, g, came, via, stamp, clock)
    ensures var rank := Ranks(vs, g, stamp);
      forall v :: v in came ==> v in rank && came[v] in rank && rank[came[v]] < rank[v]
  {
    forall v | v in came
      ensures |Lower(vs, g, stamp, came[v])| < |Lower(vs, g, stamp, v)|
    {
      assert Link(vs, g, came, via, stamp, v);
      var p := came[v];
      assert vs[p].edges[via[v]].cost >= 0.0;
      LowerShrinks(vs, g, stamp, p, v);
    }
  }

  /** `compute_astar`: searches over the graph's vertices and stores the
      path as the graph's A* path; nothing else in the graph changes. */
  method ComputeAStar(graph: Graphs.Graph, h: (nat, nat) -> real, start: nat, goal: nat) returns (ghost route: seq<Arc>)
    requires start in graph.vertices ==> goal in graph.vertices
    requires HeadsIn(graph.vertices) && NonNegative(graph.vertices)
    modifies graph`astarPath
    ensures goal !in graph.vertices ==> graph.astarPath == []
    ensures goal in graph.vertices && Reaches(graph.vertices, start, goal) ==>
      IsRoute(graph.vertices, start, route, goal) && graph.astarPath == Positions(graph.vertices, start, route, goal)
    ensures goal in graph.vertices && !Reaches(graph.vertices, start, goal) ==> graph.astarPath == [start]
    ensures goal in graph.vertices && start == goal ==> graph.astarPath == [start]
  {
    var path;
    path, route := Solve(graph.vertices, h, start, goal);
    graph.SetAStarPath(path);
  }
}
