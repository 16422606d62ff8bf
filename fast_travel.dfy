/**
 * The fast-travel route finder (components/FastTravel.tsx): Dijkstra's
 * shortest path over the transport graph with path reconstruction, and the
 * directions text for a found path. The route data the component imports
 * (its nodes) is a parameter.
 */
module FastTravel {
  import opened Wrappers
  import opened Seqs
  import opened Strings

  datatype RouteNode = RouteNode(id: string, name: string, nodeType: string, area: string)

  /**
   * A transport edge. A path segment has the same shape: `{ ...edge, from,
   * to }`. Times are whole, non-negative minutes.
   */
  datatype RouteEdge = RouteEdge(
    from: string,
    to: string,
    mode: string,
    time: nat,
    steps: seq<string>,
    transfer: Option<string>)

  datatype RouteResult = RouteResult(totalTime: nat, path: seq<RouteEdge>)

  /** `graph[from][to]`: the adjacency the search reads. */
  type Graph = map<string, map<string, RouteEdge>>

  /** The ids of the route nodes. */
  function NodeIds(nodes: seq<RouteNode>): set<string> {
    set i | 0 <= i < |nodes| :: nodes[i].id
  }

  lemma {:induction false} NodeIdsCard(nodes: seq<RouteNode>)
    ensures |NodeIds(nodes)| <= |nodes|
    decreases |nodes|
  {
    if nodes != [] {
      var init := nodes[..|nodes| - 1];
      NodeIdsCard(init);
      assert NodeIds(nodes) == NodeIds(init) + {nodes[|nodes| - 1].id} by {
        forall x | x in NodeIds(nodes) ensures x in NodeIds(init) + {nodes[|nodes| - 1].id} {
          var i :| 0 <= i < |nodes| && nodes[i].id == x;
          if i < |init| {
            assert init[i] == nodes[i];
          }
        }
        forall x | x in NodeIds(init) ensures x in NodeIds(nodes) {
          var i :| 0 <= i < |init| && init[i].id == x;
          assert nodes[i] == init[i];
        }
      }
    }
  }

  // ---------------------------------------------------------------------
  // The adjacency
  // ---------------------------------------------------------------------

  /** The adjacency after `graph[edge.from][edge.to] = edge` for each edge in turn. */
  function AdjOf(edges: seq<RouteEdge>): Graph
    decreases |edges|
  {
    if edges == [] then map[]
    else
      var g := AdjOf(edges[..|edges| - 1]);
      var e := edges[|edges| - 1];
      g[e.from := (if e.from in g then g[e.from] else map[])[e.to := e]]
  }

  /** The `forEach` that builds the adjacency. */
  method BuildAdjacency(edges: seq<RouteEdge>) returns (graph: Graph)
    ensures graph == AdjOf(edges)
  {
    graph := map[];
    var i := 0;
    while i < |edges|
      invariant 0 <= i <= |edges|
      invariant graph == AdjOf(edges[..i])
    {
      var edge := edges[i];
      if edge.from !in graph {
        graph := graph[edge.from := map[]];
      }
      graph := graph[edge.from := graph[edge.from][edge.to := edge]];
      assert edges[..i + 1][..i] == edges[..i];
      i := i + 1;
    }
    assert edges[..|edges|] == edges;
  }

  /** The entry for `from -> to`, if there is one. */
  function Lookup(g: Graph, from: string, to: string): Option<RouteEdge> {
    if from in g && to in g[from] then Some(g[from][to]) else None
  }

  /** The last edge in the list joining `from` to `to`. */
  function LastEdge(edges: seq<RouteEdge>, from: string, to: string): (r: Option<RouteEdge>)
    ensures r.Some? ==> r.value in edges && r.value.from == from && r.value.to == to
    ensures r.None? <==> forall e :: e in edges ==> !(e.from == from && e.to == to)
    decreases |edges|
  {
    if edges == [] then None
    else
      var e := edges[|edges| - 1];
      if e.from == from && e.to == to then Some(e) else LastEdge(edges[..|edges| - 1], from, to)
  }

  /** The index of the edge `LastEdge` finds: no later edge joins the same pair. */
  lemma {:induction false} LastEdgeIsLast(edges: seq<RouteEdge>, from: string, to: string)
    requires LastEdge(edges, from, to).Some?
    ensures exists i :: 0 <= i < |edges| && edges[i] == LastEdge(edges, from, to).value
              && forall j :: i < j < |edges| ==> !(edges[j].from == from && edges[j].to == to)
    decreases |edges|
  {
    var e := edges[|edges| - 1];
    if !(e.from == from && e.to == to) {
      var init := edges[..|edges| - 1];
      LastEdgeIsLast(init, from, to);
      var i :| 0 <= i < |init| && init[i] == LastEdge(init, from, to).value
               && forall j :: i < j < |init| ==> !(init[j].from == from && init[j].to == to);
      assert edges[i] == init[i];
      forall j | i < j < |edges| ensures !(edges[j].from == from && edges[j].to == to) {
        if j < |init| {
          assert edges[j] == init[j];
        }
      }
    }
  }

  /** Among edges that join the same pair, the adjacency keeps the last one. */
  lemma {:induction false} AdjIsLastEdge(edges: seq<RouteEdge>, from: string, to: string)
    ensures Lookup(AdjOf(edges), from, to) == LastEdge(edges, from, to)
    decreases |edges|
  {
    if edges != [] {
      AdjIsLastEdge(edges[..|edges| - 1], from, to);
    }
  }

  /** Each entry of a graph sits under its own two ends. */
  ghost predicate EntriesAtEnds(g: Graph) {
    forall a, b :: a in g && b in g[a] ==> EndsAt(g[a][b], a, b)
  }

  predicate EndsAt(e: RouteEdge, from: string, to: string) {
    e.from == from && e.to == to
  }

  lemma AdjEntriesAtEnds(edges: seq<RouteEdge>)
    ensures EntriesAtEnds(AdjOf(edges))
  {
    var g: Graph := AdjOf(edges);
    forall a: string, b: string | a in g && b in g[a] ensures EndsAt(g[a][b], a, b) {
      AdjIsLastEdge(edges, a, b);
      assert Lookup(g, a, b) == Some(g[a][b]);
    }
  }

  // ---------------------------------------------------------------------
  // Routes
  // ---------------------------------------------------------------------

  /** The segments follow on from one another, from `s` to `t`. */
  predicate Chain(p: seq<RouteEdge>, s: string, t: string) {
    if p == [] then s == t
    else
      p[0].from == s && p[|p| - 1].to == t
      && forall i :: 0 <= i < |p| - 1 ==> p[i].to == p[i + 1].from
  }

  /** `e` is the stored edge between two route nodes. */
  predicate UsesEdge(g: Graph, ns: set<string>, e: RouteEdge) {
    e.from in ns && e.to in ns && e.from in g && e.to in g[e.from] && g[e.from][e.to] == e
  }

  /** A route the search can take: from node `s` to `t` over stored edges between nodes. */
  predicate IsRoute(g: Graph, ns: set<string>, s: string, t: string, p: seq<RouteEdge>) {
    s in ns && Chain(p, s, t) && forall i :: 0 <= i < |p| ==> UsesEdge(g, ns, p[i])
  }

  function EdgeTime(): RouteEdge -> int {
    (e: RouteEdge) => e.time
  }

  /** The minutes a route takes: the sum of its segment times. */
  function PathTime(p: seq<RouteEdge>): int {
    SumBy(p, EdgeTime())
  }

  lemma RoutePrefix(g: Graph, ns: set<string>, s: string, t: string, p: seq<RouteEdge>)
    requires IsRoute(g, ns, s, t, p) && p != []
    ensures IsRoute(g, ns, s, p[|p| - 1].from, p[..|p| - 1])
    ensures PathTime(p) == PathTime(p[..|p| - 1]) + p[|p| - 1].time
  {
  }

  lemma RouteCons(g: Graph, ns: set<string>, t: string, e: RouteEdge, p: seq<RouteEdge>)
    requires IsRoute(g, ns, e.to, t, p) && UsesEdge(g, ns, e)
    ensures IsRoute(g, ns, e.from, t, [e] + p)
    ensures PathTime([e] + p) == e.time + PathTime(p)
  {
    SumByCons(e, p, EdgeTime());
    var q := [e] + p;
    forall i | 0 <= i < |q| ensures UsesEdge(g, ns, q[i]) {
      if i > 0 {
        assert q[i] == p[i - 1];
      }
    }
  }

  // ---------------------------------------------------------------------
  // Search state
  // ---------------------------------------------------------------------

  /** A tentative distance; `Inf` is `Infinity`. */
  datatype Dist = Inf | Fin(n: nat)

  /** `a < b` as JavaScript compares numbers with `Infinity`. */
  predicate Less(a: Dist, b: Dist) {
    a.Fin? && (b.Inf? || a.n < b.n)
  }

  predicate AtMost(a: Dist, b: Dist) {
    b.Inf? || (a.Fin? && a.n <= b.n)
  }

  /** `previous[v]`: the edge the best known way arrives by, and where from. */
  datatype Link = Link(edge: RouteEdge, from: string)

  /**
   * The shape of the search state: `distances` has an entry per node and
   * for `fromId`, `previous` one per node, and the ghost `pos` numbers the
   * visited nodes in the order they were visited.
   */
  ghost predicate Labelled(ns: set<string>, fromId: string, dist: map<string, Dist>, prev: map<string, Option<Link>>,
                           visited: set<string>, pos: map<string, nat>)
  {
    dist.Keys == ns + {fromId} && prev.Keys == ns && visited <= ns && pos.Keys == visited
    && forall v :: v in visited ==> pos[v] < |visited|
  }

  /**
   * `previous[v] = link` is a real last step: a stored edge from a visited
   * node whose distance plus the edge time is `v`'s; and that node was
   * visited before `v`, so following the links always ends.
   */
  ghost predicate LinkOk(g: Graph, ns: set<string>, dist: map<string, Dist>, visited: set<string>,
                         pos: map<string, nat>, v: string, link: Link)
    requires ns <= dist.Keys && visited <= ns && pos.Keys == visited && v in ns
  {
    link.from in visited && UsesEdge(g, ns, link.edge) && link.edge.from == link.from && link.edge.to == v
    && dist[link.from].Fin? && dist[v] == Fin(dist[link.from].n + link.edge.time)
    && (v in visited ==> pos[link.from] < pos[v])
  }

  /** Each finite distance comes with a link back, except at the start. */
  ghost predicate Linked(g: Graph, ns: set<string>, fromId: string, dist: map<string, Dist>,
                         prev: map<string, Option<Link>>, visited: set<string>, pos: map<string, nat>)
    requires Labelled(ns, fromId, dist, prev, visited, pos)
  {
    dist[fromId] == Fin(0)
    && (fromId in ns ==> prev[fromId].None?)
    && (fromId !in ns ==> visited == {} && forall v :: v in ns ==> dist[v].Inf?)
    && forall v :: v in ns ==>
         (dist[v].Fin? && v != fromId ==> prev[v].Some?)
         && (prev[v].Some? ==> LinkOk(g, ns, dist, visited, pos, v, prev[v].value))
  }

  /**
   * Dijkstra's invariant: visited nodes are no farther than unvisited ones,
   * and every edge out of a visited node has been relaxed.
   */
  ghost predicate Settled(g: Graph, ns: set<string>, dist: map<string, Dist>, visited: set<string>)
    requires ns <= dist.Keys && visited <= ns
  {
    (forall a :: a in visited ==> dist[a].Fin?)
    && (forall a, b :: a in visited && b in ns && b !in visited ==> AtMost(dist[a], dist[b]))
    && (forall a, b :: a in visited && a in g && b in g[a] && b in ns ==>
          dist[b].Fin? && dist[b].n <= dist[a].n + g[a][b].time)
  }

  ghost predicate SearchInv(g: Graph, ns: set<string>, fromId: string, dist: map<string, Dist>,
                            prev: map<string, Option<Link>>, visited: set<string>, pos: map<string, nat>)
  {
    EntriesAtEnds(g) && Labelled(ns, fromId, dist, prev, visited, pos)
    && Linked(g, ns, fromId, dist, prev, visited, pos) && Settled(g, ns, dist, visited)
  }

  /** `u` is an unvisited node at the least finite distance. */
  ghost predicate IsNearest(ns: set<string>, dist: map<string, Dist>, visited: set<string>, u: string)
    requires ns <= dist.Keys
  {
    u in ns && u !in visited && dist[u].Fin?
    && forall b :: b in ns && b !in visited ==> AtMost(dist[u], dist[b])
  }

  // ---------------------------------------------------------------------
  // One round of the search
  // ---------------------------------------------------------------------

  /** `distances` and `previous` start at `Infinity` and `null` for every node. */
  method InitLabels(nodes: seq<RouteNode>) returns (dist: map<string, Dist>, prev: map<string, Option<Link>>)
    ensures dist.Keys == NodeIds(nodes) && prev.Keys == NodeIds(nodes)
    ensures forall v :: v in dist ==> dist[v] == Inf
    ensures forall v :: v in prev ==> prev[v] == None
  {
    dist := map[];
    prev := map[];
    var i := 0;
    while i < |nodes|
      invariant 0 <= i <= |nodes|
      invariant dist.Keys == (set j | 0 <= j < i :: nodes[j].id) && prev.Keys == dist.Keys
      invariant forall v :: v in dist ==> dist[v] == Inf
      invariant forall v :: v in prev ==> prev[v] == None
    {
      dist := dist[nodes[i].id := Inf];
      prev := prev[nodes[i].id := None];
      i := i + 1;
    }
  }

  /**
   * The scan for `minNode`: the first unvisited node, in node order, whose
   * distance is strictly below every earlier candidate's; none when every
   * unvisited node is at `Infinity`.
   */
  method NearestUnvisited(nodes: seq<RouteNode>, visited: set<string>, dist: map<string, Dist>)
    returns (minNode: Option<string>)
    requires NodeIds(nodes) <= dist.Keys
    ensures minNode.None? <==> forall v :: v in NodeIds(nodes) && v !in visited ==> dist[v].Inf?
    ensures minNode.Some? ==> IsNearest(NodeIds(nodes), dist, visited, minNode.value)
    ensures minNode.Some? ==>
              exists k :: 0 <= k < |nodes| && nodes[k].id == minNode.value
                && forall j :: 0 <= j < k && nodes[j].id !in visited ==> Less(dist[minNode.value], dist[nodes[j].id])
  {
    minNode := None;
    var minDistance := Inf;
    var i := 0;
    while i < |nodes|
      invariant 0 <= i <= |nodes|
      invariant minNode.None? ==> minDistance.Inf?
      invariant minNode.Some? ==>
                  minNode.value in NodeIds(nodes) && minNode.value !in visited
                  && minDistance == dist[minNode.value] && minDistance.Fin?
      invariant minNode.Some? ==>
                  exists k :: 0 <= k < i && nodes[k].id == minNode.value
                    && forall j :: 0 <= j < k && nodes[j].id !in visited ==> Less(minDistance, dist[nodes[j].id])
      invariant forall j :: 0 <= j < i && nodes[j].id !in visited ==> AtMost(minDistance, dist[nodes[j].id])
    {
      var id := nodes[i].id;
      if id !in visited && Less(dist[id], minDistance) {
        minDistance := dist[id];
        minNode := Some(id);
      }
      i := i + 1;
    }
    forall v | v in NodeIds(nodes) && v !in visited ensures AtMost(minDistance, dist[v]) {
      var j :| 0 <= j < |nodes| && nodes[j].id == v;
    }
  }

  /** The neighbours of `u`: `graph[u] || {}`. */
  function Neighbours(g: Graph, u: string): map<string, RouteEdge> {
    if u in g then g[u] else map[]
  }

  /** `newDist < distances[v]`; false when `v` has no distance entry. */
  predicate Gains(dist: map<string, Dist>, du: nat, nbrs: map<string, RouteEdge>, v: string) {
    v in nbrs && v in dist && Less(Fin(du + nbrs[v].time), dist[v])
  }

  /** The state after relaxing every edge out of `u`, whose distance is `du`. */
  ghost predicate RelaxedFrom(dist: map<string, Dist>, prev: map<string, Option<Link>>, u: string, du: nat,
                              nbrs: map<string, RouteEdge>, dist': map<string, Dist>, prev': map<string, Option<Link>>)
  {
    dist'.Keys == dist.Keys
    && (forall v :: v in prev' <==> v in prev || Gains(dist, du, nbrs, v))
    && (forall v :: v in dist ==>
          dist'[v] == if Gains(dist, du, nbrs, v) then Fin(du + nbrs[v].time) else dist[v])
    && (forall v :: Gains(dist, du, nbrs, v) ==> prev'[v] == Some(Link(nbrs[v], u)))
    && (forall v :: v in prev && !Gains(dist, du, nbrs, v) ==> prev'[v] == prev[v])
  }

  /**
   * The relaxation `forEach`. Each neighbour is looked at once and only its
   * own entries change, so the order the entries come in does not matter.
   */
  method RelaxNeighbours(dist: map<string, Dist>, prev: map<string, Option<Link>>, u: string, du: nat,
                         nbrs: map<string, RouteEdge>)
    returns (dist': map<string, Dist>, prev': map<string, Option<Link>>)
    ensures RelaxedFrom(dist, prev, u, du, nbrs, dist', prev')
  {
    dist' := dist;
    prev' := prev;
    var todo := nbrs.Keys;
    while todo != {}
      invariant todo <= nbrs.Keys
      invariant dist'.Keys == dist.Keys
      invariant forall v :: v in prev' <==> v in prev || (Gains(dist, du, nbrs, v) && v !in todo)
      invariant forall v :: v in dist ==>
                  dist'[v] == if Gains(dist, du, nbrs, v) && v !in todo then Fin(du + nbrs[v].time) else dist[v]
      invariant forall v :: Gains(dist, du, nbrs, v) && v !in todo ==> prev'[v] == Some(Link(nbrs[v], u))
      invariant forall v :: v in prev && !(Gains(dist, du, nbrs, v) && v !in todo) ==> prev'[v] == prev[v]
      decreases |todo|
    {
      var v :| v in todo;
      var edge := nbrs[v];
      var newDist := du + edge.time;
      if v in dist' && Less(Fin(newDist), dist'[v]) {
        dist' := dist'[v := Fin(newDist)];
        prev' := prev'[v := Some(Link(edge, u))];
      }
      todo := todo - {v};
    }
  }

  /** Relaxing from the nearest node changes no visited node, nor the start. */
  lemma NoGainSettled(g: Graph, ns: set<string>, fromId: string, dist: map<string, Dist>,
                      prev: map<string, Option<Link>>, visited: set<string>, pos: map<string, nat>, u: string)
    requires SearchInv(g, ns, fromId, dist, prev, visited, pos) && IsNearest(ns, dist, visited, u)
    ensures forall a :: a in visited || a == u || a == fromId ==> !Gains(dist, dist[u].n, Neighbours(g, u), a)
    ensures fromId in ns
  {
    forall a | a in visited ensures AtMost(dist[a], dist[u]) {
    }
  }

  lemma VisitLabelled(g: Graph, ns: set<string>, fromId: string, dist: map<string, Dist>,
                      prev: map<string, Option<Link>>, visited: set<string>, pos: map<string, nat>, u: string,
                      dist': map<string, Dist>, prev': map<string, Option<Link>>)
    requires Labelled(ns, fromId, dist, prev, visited, pos) && dist[fromId] == Fin(0)
    requires u in ns && u !in visited && dist[u].Fin?
    requires RelaxedFrom(dist, prev, u, dist[u].n, Neighbours(g, u), dist', prev')
    ensures Labelled(ns, fromId, dist', prev', visited + {u}, pos[u := |visited|])
  {
    forall v ensures v in prev' <==> v in ns {
      if v == fromId {
        assert !Gains(dist, dist[u].n, Neighbours(g, u), v);
      }
    }
    var vis := visited + {u};
    assert |vis| == |visited| + 1;
    forall v | v in vis ensures pos[u := |visited|][v] < |vis| {
      if v != u {
        assert v in visited;
      }
    }
  }

  /** After visiting `u`, visited nodes are still no farther than unvisited ones. */
  lemma VisitOrdered(g: Graph, ns: set<string>, fromId: string, dist: map<string, Dist>,
                     prev: map<string, Option<Link>>, visited: set<string>, pos: map<string, nat>, u: string,
                     dist': map<string, Dist>, prev': map<string, Option<Link>>)
    requires ns <= dist.Keys && visited <= ns && IsNearest(ns, dist, visited, u)
    requires forall a, b :: a in visited && b in ns && b !in visited ==> AtMost(dist[a], dist[b])
    requires RelaxedFrom(dist, prev, u, dist[u].n, Neighbours(g, u), dist', prev')
    requires forall a :: a in visited || a == u ==> !Gains(dist, dist[u].n, Neighbours(g, u), a)
    ensures forall a, b :: a in visited + {u} && b in ns && b !in visited + {u} ==> AtMost(dist'[a], dist'[b])
  {
    forall a, b | a in visited + {u} && b in ns && b !in visited + {u} ensures AtMost(dist'[a], dist'[b]) {
      assert dist'[a] == dist[a];
      if !Gains(dist, dist[u].n, Neighbours(g, u), b) {
        assert AtMost(dist[u], dist[b]);
      }
    }
  }

  /** After visiting `u`, every edge out of a visited node is still relaxed. */
  lemma VisitRelaxed(g: Graph, ns: set<string>, fromId: string, dist: map<string, Dist>,
                     prev: map<string, Option<Link>>, visited: set<string>, pos: map<string, nat>, u: string,
                     dist': map<string, Dist>, prev': map<string, Option<Link>>)
    requires ns <= dist.Keys && visited <= ns && u in ns && dist[u].Fin?
    requires forall a :: a in visited ==> dist[a].Fin?
    requires forall a, b :: a in visited && a in g && b in g[a] && b in ns ==>
               dist[b].Fin? && dist[b].n <= dist[a].n + g[a][b].time
    requires RelaxedFrom(dist, prev, u, dist[u].n, Neighbours(g, u), dist', prev')
    requires forall a :: a in visited || a == u ==> !Gains(dist, dist[u].n, Neighbours(g, u), a)
    ensures forall a, b :: a in visited + {u} && a in g && b in g[a] && b in ns ==>
              dist'[b].Fin? && dist'[b].n <= dist'[a].n + g[a][b].time
  {
    forall a, b | a in visited + {u} && a in g && b in g[a] && b in ns
      ensures dist'[b].Fin? && dist'[b].n <= dist'[a].n + g[a][b].time
    {
      assert dist'[a] == dist[a];
      if a == u {
        assert Neighbours(g, u) == g[u];
      } else {
        assert AtMost(dist'[b], dist[b]);
      }
    }
  }

  lemma VisitSettled(g: Graph, ns: set<string>, fromId: string, dist: map<string, Dist>,
                     prev: map<string, Option<Link>>, visited: set<string>, pos: map<string, nat>, u: string,
                     dist': map<string, Dist>, prev': map<string, Option<Link>>)
    requires ns <= dist.Keys && visited <= ns && Settled(g, ns, dist, visited) && IsNearest(ns, dist, visited, u)
    requires RelaxedFrom(dist, prev, u, dist[u].n, Neighbours(g, u), dist', prev')
    requires forall a :: a in visited || a == u ==> !Gains(dist, dist[u].n, Neighbours(g, u), a)
    ensures ns <= dist'.Keys && Settled(g, ns, dist', visited + {u})
  {
    VisitOrdered(g, ns, fromId, dist, prev, visited, pos, u, dist', prev');
    VisitRelaxed(g, ns, fromId, dist, prev, visited, pos, u, dist', prev');
  }

  /** The link invariant at one node `v` after visiting `u`. */
  lemma VisitLinkedAt(g: Graph, ns: set<string>, fromId: string, dist: map<string, Dist>,
                      prev: map<string, Option<Link>>, visited: set<string>, pos: map<string, nat>, u: string,
                      dist': map<string, Dist>, prev': map<string, Option<Link>>, v: string)
    requires Labelled(ns, fromId, dist, prev, visited, pos)
    requires Labelled(ns, fromId, dist', prev', visited + {u}, pos[u := |visited|])
    requires EntriesAtEnds(g) && u in ns && u !in visited && dist[u].Fin? && v in ns
    requires RelaxedFrom(dist, prev, u, dist[u].n, Neighbours(g, u), dist', prev')
    requires forall a :: a in visited || a == u ==> !Gains(dist, dist[u].n, Neighbours(g, u), a)
    requires dist[v].Fin? && v != fromId ==> prev[v].Some?
    requires prev[v].Some? ==> LinkOk(g, ns, dist, visited, pos, v, prev[v].value)
    ensures dist'[v].Fin? && v != fromId ==> prev'[v].Some?
    ensures prev'[v].Some? ==> LinkOk(g, ns, dist', visited + {u}, pos[u := |visited|], v, prev'[v].value)
  {
    var nbrs := Neighbours(g, u);
    if Gains(dist, dist[u].n, nbrs, v) {
      assert nbrs == g[u] && EndsAt(g[u][v], u, v);
      assert dist'[u] == dist[u];
    } else if prev[v].Some? {
      var link := prev[v].value;
      assert dist'[link.from] == dist[link.from];
      assert dist'[v] == dist[v];
    }
  }

  lemma VisitLinked(g: Graph, ns: set<string>, fromId: string, dist: map<string, Dist>,
                    prev: map<string, Option<Link>>, visited: set<string>, pos: map<string, nat>, u: string,
                    dist': map<string, Dist>, prev': map<string, Option<Link>>)
    requires SearchInv(g, ns, fromId, dist, prev, visited, pos) && IsNearest(ns, dist, visited, u)
    requires RelaxedFrom(dist, prev, u, dist[u].n, Neighbours(g, u), dist', prev')
    requires Labelled(ns, fromId, dist', prev', visited + {u}, pos[u := |visited|])
    ensures Linked(g, ns, fromId, dist', prev', visited + {u}, pos[u := |visited|])
  {
    NoGainSettled(g, ns, fromId, dist, prev, visited, pos, u);
    forall v | v in ns
      ensures (dist'[v].Fin? && v != fromId ==> prev'[v].Some?)
              && (prev'[v].Some? ==> LinkOk(g, ns, dist', visited + {u}, pos[u := |visited|], v, prev'[v].value))
    {
      VisitLinkedAt(g, ns, fromId, dist, prev, visited, pos, u, dist', prev', v);
    }
  }

  /** `visited.add(minNode)` and the relaxation of its edges. */
  method Visit(g: Graph, ghost ns: set<string>, fromId: string, dist: map<string, Dist>,
               prev: map<string, Option<Link>>, visited: set<string>, ghost pos: map<string, nat>, u: string)
    returns (dist': map<string, Dist>, prev': map<string, Option<Link>>, visited': set<string>,
             ghost pos': map<string, nat>)
    requires SearchInv(g, ns, fromId, dist, prev, visited, pos) && IsNearest(ns, dist, visited, u)
    ensures SearchInv(g, ns, fromId, dist', prev', visited', pos')
    ensures visited' == visited + {u} && u !in visited && |visited'| == |visited| + 1
    ensures RelaxedFrom(dist, prev, u, dist[u].n, Neighbours(g, u), dist', prev')
  {
    visited' := visited + {u};
    pos' := pos[u := |visited|];
    dist', prev' := RelaxNeighbours(dist, prev, u, dist[u].n, Neighbours(g, u));
    VisitLabelled(g, ns, fromId, dist, prev, visited, pos, u, dist', prev');
    NoGainSettled(g, ns, fromId, dist, prev, visited, pos, u);
    VisitSettled(g, ns, fromId, dist, prev, visited, pos, u, dist', prev');
    VisitLinked(g, ns, fromId, dist, prev, visited, pos, u, dist', prev');
  }

  // ---------------------------------------------------------------------
  // Why the distances are shortest
  // ---------------------------------------------------------------------

  /**
   * Follow any route from the start to `v`: if `v` is visited its distance
   * is at most the route's time, and otherwise some unvisited node already
   * has a distance at most that time.
   */
  lemma {:induction false} RouteBound(g: Graph, ns: set<string>, fromId: string, dist: map<string, Dist>,
                                      visited: set<string>, v: string, p: seq<RouteEdge>)
    returns (x: string)
    requires ns <= dist.Keys && visited <= ns && fromId in dist && dist[fromId] == Fin(0)
    requires Settled(g, ns, dist, visited) && IsRoute(g, ns, fromId, v, p)
    ensures v in visited ==> dist[v].Fin? && dist[v].n <= PathTime(p)
    ensures v !in visited ==> x in ns && x !in visited && dist[x].Fin? && dist[x].n <= PathTime(p)
    decreases |p|
  {
    if p == [] {
      x := fromId;
    } else {
      var e := p[|p| - 1];
      var q := p[..|p| - 1];
      RoutePrefix(g, ns, fromId, v, p);
      var y := RouteBound(g, ns, fromId, dist, visited, e.from, q);
      assert UsesEdge(g, ns, e);
      if e.from in visited {
        x := v;
      } else if v in visited {
        assert AtMost(dist[v], dist[y]);
        x := y;
      } else {
        x := y;
      }
    }
  }

  /** How the main loop may stop: `toId` visited, or nothing unvisited is nearer. */
  ghost predicate Finished(ns: set<string>, dist: map<string, Dist>, visited: set<string>, toId: string)
    requires ns <= dist.Keys && toId in ns
  {
    toId in visited || forall b :: b in ns && b !in visited ==> AtMost(dist[toId], dist[b])
  }

  /** Once the loop has stopped, `toId`'s distance is a lower bound on every route to it. */
  lemma FinishedBound(g: Graph, ns: set<string>, fromId: string, dist: map<string, Dist>,
                      prev: map<string, Option<Link>>, visited: set<string>, pos: map<string, nat>,
                      toId: string, p: seq<RouteEdge>)
    requires SearchInv(g, ns, fromId, dist, prev, visited, pos) && toId in ns
    requires Finished(ns, dist, visited, toId) && IsRoute(g, ns, fromId, toId, p)
    ensures dist[toId].Fin? && dist[toId].n <= PathTime(p)
  {
    var x := RouteBound(g, ns, fromId, dist, visited, toId, p);
    if toId !in visited {
      assert AtMost(dist[toId], dist[x]);
    }
  }

  /** The loop ran out: every node is visited. */
  lemma AllVisited(nodes: seq<RouteNode>, visited: set<string>, toId: string)
    requires visited <= NodeIds(nodes) && |visited| >= |nodes| && toId in NodeIds(nodes)
    ensures toId in visited
  {
    NodeIdsCard(nodes);
    if toId !in visited {
      SubsetCard(visited, NodeIds(nodes) - {toId});
    }
  }

  // ---------------------------------------------------------------------
  // findShortestPath
  // ---------------------------------------------------------------------

  /**
   * The set-up and the main loop: distances start at `Infinity`, `fromId`'s
   * at 0; each round visits the nearest unvisited node and relaxes its edges,
   * until no unvisited node is reachable, the nearest one is `toId`, or
   * every node has been visited.
   */
  method Search(nodes: seq<RouteNode>, graph: Graph, fromId: string, toId: string)
    returns (dist: map<string, Dist>, prev: map<string, Option<Link>>, visited: set<string>,
             ghost pos: map<string, nat>)
    requires EntriesAtEnds(graph) && toId in NodeIds(nodes)
    ensures SearchInv(graph, NodeIds(nodes), fromId, dist, prev, visited, pos)
    ensures Finished(NodeIds(nodes), dist, visited, toId)
  {
    ghost var ns := NodeIds(nodes);
    dist, prev := InitLabels(nodes);
    dist := dist[fromId := Fin(0)];
    visited := {};
    pos := map[];
    ghost var stopped := false;
    while |visited| < |nodes|
      invariant SearchInv(graph, ns, fromId, dist, prev, visited, pos)
      invariant !stopped
      decreases |nodes| - |visited|
    {
      var minNode := NearestUnvisited(nodes, visited, dist);
      if minNode.None? || minNode.value == toId {
        stopped := true;
        assert Finished(ns, dist, visited, toId);
        break;
      }
      dist, prev, visited, pos := Visit(graph, ns, fromId, dist, prev, visited, pos, minNode.value);
    }
    if !stopped {
      AllVisited(nodes, visited, toId);
    }
  }

  /**
   * The reconstruction loop: follow `previous` back from `toId`, putting
   * each segment in front, until the start is reached.
   */
  method Reconstruct(graph: Graph, ghost ns: set<string>, fromId: string, toId: string, dist: map<string, Dist>,
                     prev: map<string, Option<Link>>, visited: set<string>, ghost pos: map<string, nat>)
    returns (path: seq<RouteEdge>)
    requires SearchInv(graph, ns, fromId, dist, prev, visited, pos) && toId in ns && dist[toId].Fin?
    ensures IsRoute(graph, ns, fromId, toId, path) && PathTime(path) == dist[toId].n
  {
    path := [];
    var current := toId;
    while prev[current].Some?
      invariant current in ns && dist[current].Fin?
      invariant current in visited || current == toId
      invariant IsRoute(graph, ns, current, toId, path)
      invariant dist[toId].n == dist[current].n + PathTime(path)
      decreases if current in visited then pos[current] else |visited|
    {
      var link := prev[current].value;
      assert LinkOk(graph, ns, dist, visited, pos, current, link);
      var segment := link.edge.(from := link.from, to := current);
      RouteCons(graph, ns, toId, segment, path);
      path := [segment] + path;
      current := link.from;
    }
  }

  /**
   * `findShortestPath`: null when the ends coincide or no route joins them;
   * otherwise a route through the graph (the last edge listed for each pair
   * of ends) whose time is `totalTime` and which no route beats.
   */
  method FindShortestPath(nodes: seq<RouteNode>, fromId: string, toId: string, edges: seq<RouteEdge>)
    returns (r: Option<RouteResult>)
    requires fromId != toId ==> toId in NodeIds(nodes)
    ensures fromId == toId ==> r.None?
    ensures r.Some? ==> IsRoute(AdjOf(edges), NodeIds(nodes), fromId, toId, r.value.path)
                        && r.value.totalTime == PathTime(r.value.path)
    ensures r.Some? ==> forall p :: IsRoute(AdjOf(edges), NodeIds(nodes), fromId, toId, p) ==>
                          r.value.totalTime <= PathTime(p)
    ensures fromId != toId && r.None? ==> forall p :: !IsRoute(AdjOf(edges), NodeIds(nodes), fromId, toId, p)
  {
    if fromId == toId {
      return None;
    }
    var graph := BuildAdjacency(edges);
    AdjEntriesAtEnds(edges);
    ghost var ns := NodeIds(nodes);
    var dist, prev, visited, pos := Search(nodes, graph, fromId, toId);
    forall p | IsRoute(graph, ns, fromId, toId, p) ensures dist[toId].Fin? && dist[toId].n <= PathTime(p) {
      FinishedBound(graph, ns, fromId, dist, prev, visited, pos, toId, p);
    }
    if dist[toId] == Inf {
      return None;
    }
    var path := Reconstruct(graph, ns, fromId, toId, dist, prev, visited, pos);
    return Some(RouteResult(dist[toId].n, path));
  }

  // ---------------------------------------------------------------------
  // generateRouteDirections
  // ---------------------------------------------------------------------

  /** `routes.nodes.find((n) => n.id === nodeId)`: the first node with that id. */
  function FindNode(nodes: seq<RouteNode>, nodeId: string): (r: Option<RouteNode>)
    ensures r.Some? ==> r.value in nodes && r.value.id == nodeId
    ensures r.None? <==> forall n :: n in nodes ==> n.id != nodeId
  {
    if nodes == [] then None
    else if nodes[0].id == nodeId then Some(nodes[0])
    else FindNode(nodes[1..], nodeId)
  }

  /** No node before the one found has that id. */
  lemma {:induction false} FindNodeIsFirst(nodes: seq<RouteNode>, nodeId: string)
    requires FindNode(nodes, nodeId).Some?
    ensures exists k :: 0 <= k < |nodes| && nodes[k] == FindNode(nodes, nodeId).value
              && forall j :: 0 <= j < k ==> nodes[j].id != nodeId
  {
    if nodes[0].id != nodeId {
      var rest := nodes[1..];
      FindNodeIsFirst(rest, nodeId);
      var k :| 0 <= k < |rest| && rest[k] == FindNode(rest, nodeId).value
               && forall j :: 0 <= j < k ==> rest[j].id != nodeId;
      assert nodes[k + 1] == rest[k];
      forall j | 0 <= j < k + 1 ensures nodes[j].id != nodeId {
        if j > 0 {
          assert nodes[j] == rest[j - 1];
        }
      }
    }
  }

  /** `getNodeName`: the node's name, or the id itself when no node has it. */
  function NodeName(nodes: seq<RouteNode>, nodeId: string): string {
    match FindNode(nodes, nodeId)
    case Some(n) => n.name
    case None => nodeId
  }

  /** `getTransportationLabel`. */
  function TransportLabel(mode: string): string {
    if mode == "monorail" then "Monorail"
    else if mode == "skyliner" then "Disney Skyliner"
    else if mode == "bus" then "Disney Bus"
    else if mode == "boat" then "Boat"
    else if mode == "walking" then "Walk"
    else mode
  }

  /** `${segment.time} min`. */
  function Minutes(seg: RouteEdge): string {
    NatToString(seg.time) + " min"
  }

  /** The text of a one-segment route. */
  function DirectText(nodes: seq<RouteNode>, seg: RouteEdge): string {
    var fromName := NodeName(nodes, seg.from);
    var toName := NodeName(nodes, seg.to);
    if seg.mode == "walking" then "Walk from " + fromName + " to " + toName + " (" + Minutes(seg) + ")."
    else "Take the " + TransportLabel(seg.mode) + " from " + fromName + " to " + toName + " (" + Minutes(seg) + ")."
  }

  /** The departure phrase of the first segment. */
  function Departure(nodes: seq<RouteNode>, seg: RouteEdge): string {
    if seg.mode == "walking" then "Walk from " + NodeName(nodes, seg.from) + " (" + Minutes(seg) + ")"
    else "Take the " + TransportLabel(seg.mode) + " from " + NodeName(nodes, seg.from) + " (" + Minutes(seg) + ")"
  }

  /** The arrival phrase of the last segment. */
  function Arrival(nodes: seq<RouteNode>, seg: RouteEdge): string {
    if seg.mode == "walking" then "Walk to " + NodeName(nodes, seg.to) + " (" + Minutes(seg) + ")"
    else "Ride to " + NodeName(nodes, seg.to) + " (" + Minutes(seg) + ")"
  }

  /** `path[index - 1]?.transfer` is truthy: present and not the empty string. */
  predicate HasTransfer(seg: RouteEdge) {
    seg.transfer.Some? && seg.transfer.value != ""
  }

  /** The "Transfer at" phrase, if the segment names a transfer point. */
  function TransferPart(nodes: seq<RouteNode>, seg: RouteEdge): seq<string> {
    if HasTransfer(seg) then ["Transfer at " + NodeName(nodes, seg.transfer.value)] else []
  }

  /** The parts of a route of two or more segments, in order. */
  function DirectionParts(nodes: seq<RouteNode>, path: seq<RouteEdge>): seq<string>
    requires |path| >= 2
  {
    [Departure(nodes, path[0])] + TransferPart(nodes, path[|path| - 2]) + [Arrival(nodes, path[|path| - 1])]
  }

  /** What `generateRouteDirections` returns. */
  function RouteDirections(nodes: seq<RouteNode>, path: seq<RouteEdge>): string {
    if |path| == 0 then ""
    else if |path| == 1 then DirectText(nodes, path[0])
    else Join(DirectionParts(nodes, path), ", then ")
  }

  /**
   * `generateRouteDirections`: the `forEach` pushes the departure at index 0,
   * the transfer and arrival at the last index, and nothing in between.
   */
  method GenerateRouteDirections(nodes: seq<RouteNode>, path: seq<RouteEdge>) returns (text: string)
    ensures text == RouteDirections(nodes, path)
  {
    if |path| == 0 {
      return "";
    }
    if |path| == 1 {
      var segment := path[0];
      var fromName := NodeName(nodes, segment.from);
      var toName := NodeName(nodes, segment.to);
      var transport := TransportLabel(segment.mode);
      if segment.mode == "walking" {
        return "Walk from " + fromName + " to " + toName + " (" + Minutes(segment) + ").";
      }
      return "Take the " + transport + " from " + fromName + " to " + toName + " (" + Minutes(segment) + ").";
    }
    var directions: seq<string> := [];
    var index := 0;
    while index < |path|
      invariant 0 <= index <= |path|
      invariant index == 0 ==> directions == []
      invariant 0 < index < |path| ==> directions == [Departure(nodes, path[0])]
      invariant index == |path| ==> directions == DirectionParts(nodes, path)
    {
      var segment := path[index];
      var fromName := NodeName(nodes, segment.from);
      var toName := NodeName(nodes, segment.to);
      var transport := TransportLabel(segment.mode);
      if index == 0 {
        if segment.mode == "walking" {
          directions := directions + ["Walk from " + fromName + " (" + Minutes(segment) + ")"];
        } else {
          directions := directions + ["Take the " + transport + " from " + fromName + " (" + Minutes(segment) + ")"];
        }
      } else if index == |path| - 1 {
        if HasTransfer(path[index - 1]) {
          var transferName := NodeName(nodes, path[index - 1].transfer.value);
          directions := directions + ["Transfer at " + transferName];
        }
        if segment.mode == "walking" {
          directions := directions + ["Walk to " + toName + " (" + Minutes(segment) + ")"];
        } else {
          directions := directions + ["Ride to " + toName + " (" + Minutes(segment) + ")"];
        }
      }
      index := index + 1;
    }
    text := Join(directions, ", then ");
  }

  /** A non-empty part joined with others leaves a non-empty string. */
  lemma JoinNonEmpty(parts: seq<string>, sep: string)
    requires |parts| >= 1 && parts[0] != []
    ensures Join(parts, sep) != []
  {
  }

  /** The directions are empty exactly for the empty path. */
  lemma DirectionsEmptyIff(nodes: seq<RouteNode>, path: seq<RouteEdge>)
    ensures RouteDirections(nodes, path) == "" <==> path == []
  {
    if |path| >= 2 {
      JoinNonEmpty(DirectionParts(nodes, path), ", then ");
    }
  }

  /**
   * A longer route reads as its departure, a "Transfer at" phrase exactly
   * when the next-to-last segment names a transfer, and its arrival.
   */
  lemma MultiSegmentDirections(nodes: seq<RouteNode>, path: seq<RouteEdge>)
    requires |path| >= 2
    ensures var parts := DirectionParts(nodes, path);
            RouteDirections(nodes, path) == Join(parts, ", then ")
            && |parts| == (if HasTransfer(path[|path| - 2]) then 3 else 2)
            && parts[0] == Departure(nodes, path[0])
            && parts[|parts| - 1] == Arrival(nodes, path[|path| - 1])
            && (HasTransfer(path[|path| - 2]) ==>
                  parts[1] == "Transfer at " + NodeName(nodes, path[|path| - 2].transfer.value))
  {
  }

  predicate StartsWith(s: string, prefix: string) {
    |prefix| <= |s| && s[..|prefix|] == prefix
  }

  /** Neither a departure nor an arrival begins like a transfer phrase. */
  lemma EndsAreNotTransfers(nodes: seq<RouteNode>, seg: RouteEdge)
    ensures !StartsWith(Departure(nodes, seg), "Transfer at ")
    ensures !StartsWith(Arrival(nodes, seg), "Transfer at ")
  {
    var d := Departure(nodes, seg);
    var a := Arrival(nodes, seg);
    if seg.mode == "walking" {
      assert d[0] == 'W';
    } else {
      assert d[1] == 'a';
    }
    if seg.mode == "walking" {
      assert a[0] == 'W';
    } else {
      assert a[0] == 'R';
    }
  }

  /** Some part is a "Transfer at" phrase iff the next-to-last segment has a transfer. */
  lemma TransferIffPenultimate(nodes: seq<RouteNode>, path: seq<RouteEdge>)
    requires |path| >= 2
    ensures (exists k :: 0 <= k < |DirectionParts(nodes, path)| && StartsWith(DirectionParts(nodes, path)[k], "Transfer at "))
            <==> HasTransfer(path[|path| - 2])
  {
    var parts := DirectionParts(nodes, path);
    EndsAreNotTransfers(nodes, path[0]);
    EndsAreNotTransfers(nodes, path[|path| - 1]);
    if HasTransfer(path[|path| - 2]) {
      var t := "Transfer at " + NodeName(nodes, path[|path| - 2].transfer.value);
      assert parts[1] == t && t[..12] == "Transfer at ";
    } else {
      assert parts == [Departure(nodes, path[0]), Arrival(nodes, path[|path| - 1])];
    }
  }

  /** Segments strictly between the first and the last two do not change the text. */
  lemma DirectionsIgnoreMiddle(nodes: seq<RouteNode>, p: seq<RouteEdge>, q: seq<RouteEdge>)
    requires |p| >= 2 && |q| >= 2
    requires p[0] == q[0] && p[|p| - 2] == q[|q| - 2] && p[|p| - 1] == q[|q| - 1]
    ensures RouteDirections(nodes, p) == RouteDirections(nodes, q)
  {
    assert DirectionParts(nodes, p) == DirectionParts(nodes, q);
  }
}
