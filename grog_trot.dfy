/**
 * The bar-crawl generator (lib/grog-trot/algorithm.ts). The venue list and
 * the transport edges, JSON imports in the source, are parameters; the area
 * graph is built from the edges once and passed along.
 */
module GrogTrot {
  import opened Wrappers
  import opened Strings
  import opened Seqs
  import opened GrogTypes

  // ------------------------------------------------------------ the area graph

  /**
   * One area's neighbours: an inner JavaScript Map keyed by `toArea`, kept as
   * its values in the order their keys were first set.
   */
  type Neighbours = seq<Edge>

  type Graph = map<Area, Neighbours>

  /** `inner.get(to)`. */
  function Get(ns: Neighbours, to: Area): (r: Option<Edge>)
    ensures r.Some? ==> r.value in ns && r.value.toArea == to
    ensures r.None? <==> forall e :: e in ns ==> e.toArea != to
  {
    if ns == [] then None
    else if ns[0].toArea == to then Some(ns[0])
    else Get(ns[1..], to)
  }

  /** `inner.set(e.toArea, e)`: an existing key keeps its place and takes the new value, a new key goes last. */
  function Put(ns: Neighbours, e: Edge): (r: Neighbours)
    ensures |r| == |ns| || |r| == |ns| + 1
  {
    if ns == [] then [e]
    else if ns[0].toArea == e.toArea then [e] + ns[1..]
    else [ns[0]] + Put(ns[1..], e)
  }

  /** The keys of an inner Map, in iteration order. */
  function Keys(ns: Neighbours): seq<Area> {
    if ns == [] then [] else [ns[0].toArea] + Keys(ns[1..])
  }

  /** Setting a key puts the new value under it and leaves every other key's value alone. */
  lemma {:induction false} PutGet(ns: Neighbours, e: Edge)
    ensures Get(Put(ns, e), e.toArea) == Some(e)
    ensures forall b :: b != e.toArea ==> Get(Put(ns, e), b) == Get(ns, b)
  {
    if ns != [] && ns[0].toArea != e.toArea {
      PutGet(ns[1..], e);
      assert Put(ns, e)[1..] == Put(ns[1..], e);
    } else if ns != [] {
      assert Put(ns, e)[1..] == ns[1..];
    }
  }

  /** An existing key keeps its place; a new key goes last. */
  lemma {:induction false} PutKeys(ns: Neighbours, e: Edge)
    ensures Keys(Put(ns, e)) == if e.toArea in Keys(ns) then Keys(ns) else Keys(ns) + [e.toArea]
  {
    if ns != [] && ns[0].toArea != e.toArea {
      PutKeys(ns[1..], e);
      assert Put(ns, e) == [ns[0]] + Put(ns[1..], e);
      assert Keys(Put(ns, e)) == [ns[0].toArea] + Keys(Put(ns[1..], e));
    } else if ns != [] {
      assert Put(ns, e) == [e] + ns[1..];
      assert Keys(Put(ns, e)) == [e.toArea] + Keys(ns[1..]);
    }
  }

  /** The values after a set are the old ones and the new one. */
  lemma {:induction false} PutMembers(ns: Neighbours, e: Edge)
    ensures forall x :: x in Put(ns, e) ==> x in ns || x == e
  {
    if ns != [] && ns[0].toArea != e.toArea {
      PutMembers(ns[1..], e);
    }
  }

  /** The edge seen from its other end. */
  function Flip(e: Edge): Edge {
    Edge(e.toArea, e.fromArea, e.mode, e.avgMinutes)
  }

  /**
   * One turn of the loop in `buildGraph`: both areas get an entry, the edge
   * goes under its `toArea` at its `fromArea`, and the flipped edge under its
   * `fromArea` at its `toArea`. The reverse entry is read after the forward
   * one is set, so an edge from an area to itself lands in one inner Map.
   */
  function AddEdge(g: Graph, e: Edge): Graph {
    var g1 := if e.fromArea in g then g else g[e.fromArea := []];
    var g2 := if e.toArea in g1 then g1 else g1[e.toArea := []];
    var g3 := g2[e.fromArea := Put(g2[e.fromArea], e)];
    g3[e.toArea := Put(g3[e.toArea], Flip(e))]
  }

  /** The graph `buildGraph` returns: the edges added in list order. */
  function GraphOf(edges: seq<Edge>): Graph
    decreases |edges|
  {
    if edges == [] then map[] else AddEdge(GraphOf(edges[..|edges| - 1]), edges[|edges| - 1])
  }

  /** `graph.get(a)?.get(b)`. */
  function Lookup(g: Graph, a: Area, b: Area): Option<Edge> {
    if a in g then Get(g[a], b) else None
  }

  /** Every inner Map is non-empty and holds edges leaving its area. */
  ghost predicate WellShaped(g: Graph) {
    forall a :: a in g ==> g[a] != [] && forall e :: e in g[a] ==> e.fromArea == a
  }

  /** `buildGraph`. */
  method BuildGraph(edges: seq<Edge>) returns (g: Graph)
    ensures g == GraphOf(edges)
  {
    g := map[];
    for i := 0 to |edges|
      invariant g == GraphOf(edges[..i])
    {
      var edge := edges[i];
      if edge.fromArea !in g {
        g := g[edge.fromArea := []];
      }
      if edge.toArea !in g {
        g := g[edge.toArea := []];
      }
      g := g[edge.fromArea := Put(g[edge.fromArea], edge)];
      g := g[edge.toArea := Put(g[edge.toArea], Flip(edge))];
      assert edges[..i + 1][..i] == edges[..i];
    }
    assert edges[..|edges|] == edges;
  }

  /** Adding an edge keeps the graph well shaped and gives both its areas an entry. */
  lemma AddEdgeShape(g: Graph, e: Edge)
    requires WellShaped(g)
    ensures WellShaped(AddEdge(g, e))
    ensures AddEdge(g, e).Keys == g.Keys + {e.fromArea, e.toArea}
  {
    var f, t := e.fromArea, e.toArea;
    var g1: Graph := if f in g then g else g[f := []];
    var g2: Graph := if t in g1 then g1 else g1[t := []];
    var g3: Graph := g2[f := Put(g2[f], e)];
    var g4: Graph := g3[t := Put(g3[t], Flip(e))];
    assert g4 == AddEdge(g, e);
    PutMembers(g2[f], e);
    PutMembers(g3[t], Flip(e));
    forall a | a in g4 ensures g4[a] != [] && forall x :: x in g4[a] ==> x.fromArea == a {
      if a == t {
        PutGet(g3[t], Flip(e));
      } else if a == f {
        PutGet(g2[f], e);
      }
    }
  }

  /**
   * Adding an edge makes it the edge between its two areas in both
   * directions and changes no other pair of areas.
   */
  lemma AddEdgeLookup(g: Graph, e: Edge)
    ensures Lookup(AddEdge(g, e), e.fromArea, e.toArea) == Some(e)
    ensures Lookup(AddEdge(g, e), e.toArea, e.fromArea) == Some(Flip(e))
    ensures forall a, b :: !(a == e.fromArea && b == e.toArea) && !(a == e.toArea && b == e.fromArea) ==>
              Lookup(AddEdge(g, e), a, b) == Lookup(g, a, b)
  {
    var f, t := e.fromArea, e.toArea;
    var g1: Graph := if f in g then g else g[f := []];
    var g2: Graph := if t in g1 then g1 else g1[t := []];
    var g3: Graph := g2[f := Put(g2[f], e)];
    var g4: Graph := g3[t := Put(g3[t], Flip(e))];
    assert g4 == AddEdge(g, e);
    PutGet(g2[f], e);
    PutGet(g3[t], Flip(e));
    if f == t {
      assert Flip(e) == e;
    }
    forall a, b | !(a == f && b == t) && !(a == t && b == f) ensures Lookup(g4, a, b) == Lookup(g, a, b) {
      if a == f {
        assert b != t;
      }
    }
  }

  /** The graph of any edge list is well shaped, with an entry for exactly the areas the edges touch. */
  lemma GraphShape(edges: seq<Edge>)
    ensures WellShaped(GraphOf(edges))
    ensures forall a :: a in GraphOf(edges) <==> exists e :: e in edges && (a == e.fromArea || a == e.toArea)
  {
    GraphWellShaped(edges);
    GraphAreas(edges);
  }

  lemma {:induction false} GraphWellShaped(edges: seq<Edge>)
    ensures WellShaped(GraphOf(edges))
    decreases |edges|
  {
    if edges != [] {
      var init := edges[..|edges| - 1];
      GraphWellShaped(init);
      AddEdgeShape(GraphOf(init), edges[|edges| - 1]);
    }
  }

  lemma {:induction false} GraphAreas(edges: seq<Edge>)
    ensures forall a :: a in GraphOf(edges) <==> exists e :: e in edges && (a == e.fromArea || a == e.toArea)
    decreases |edges|
  {
    if edges != [] {
      var init := edges[..|edges| - 1];
      var last := edges[|edges| - 1];
      GraphAreas(init);
      AddEdgeKeys(GraphOf(init), last);
      assert edges == init + [last];
      forall a ensures a in GraphOf(edges) <==> exists e :: e in edges && (a == e.fromArea || a == e.toArea) {
        if exists e :: e in init && (a == e.fromArea || a == e.toArea) {
          var e :| e in init && (a == e.fromArea || a == e.toArea);
          assert e in edges;
        }
        if exists e :: e in edges && (a == e.fromArea || a == e.toArea) {
          var e :| e in edges && (a == e.fromArea || a == e.toArea);
          assert e in init || e == last;
        }
      }
    }
  }

  lemma AddEdgeKeys(g: Graph, e: Edge)
    ensures AddEdge(g, e).Keys == g.Keys + {e.fromArea, e.toArea}
  {
  }

  /**
   * The graph is symmetric: an edge from `a` to `b` is stored under `b` at
   * `a`, and the same edge reversed is stored under `a` at `b`.
   */
  lemma {:induction false} GraphSymmetric(edges: seq<Edge>)
    ensures forall a, b :: Lookup(GraphOf(edges), a, b).Some? ==>
              var x := Lookup(GraphOf(edges), a, b).value;
              x.fromArea == a && x.toArea == b && Lookup(GraphOf(edges), b, a) == Some(Flip(x))
    decreases |edges|
  {
    if edges != [] {
      var init := edges[..|edges| - 1];
      var e := edges[|edges| - 1];
      GraphSymmetric(init);
      AddEdgeLookup(GraphOf(init), e);
      var g := GraphOf(edges);
      forall a, b | Lookup(g, a, b).Some?
        ensures var x := Lookup(g, a, b).value; x.fromArea == a && x.toArea == b && Lookup(g, b, a) == Some(Flip(x))
      {
        if a == e.fromArea && b == e.toArea {
        } else if a == e.toArea && b == e.fromArea {
          assert Flip(Flip(e)) == e;
        } else {
          assert Lookup(g, a, b) == Lookup(GraphOf(init), a, b);
          assert Lookup(g, b, a) == Lookup(GraphOf(init), b, a);
        }
      }
    }
  }

  /** Every listed edge connects its areas in the graph, both ways. */
  lemma {:induction false} GraphCovers(edges: seq<Edge>)
    ensures forall e :: e in edges ==>
              Lookup(GraphOf(edges), e.fromArea, e.toArea).Some? && Lookup(GraphOf(edges), e.toArea, e.fromArea).Some?
    decreases |edges|
  {
    if edges != [] {
      var init := edges[..|edges| - 1];
      var last := edges[|edges| - 1];
      GraphCovers(init);
      AddEdgeLookup(GraphOf(init), last);
      forall e | e in edges
        ensures Lookup(GraphOf(edges), e.fromArea, e.toArea).Some? && Lookup(GraphOf(edges), e.toArea, e.fromArea).Some?
      {
        if e != last {
          assert edges == init + [last];
          assert e in init;
        }
      }
    }
  }

  // ------------------------------------------------------------ getShortestEdge

  /** The minutes of the two-leg connection through `step` (whose second leg exists). */
  function ViaMinutes(g: Graph, step: Edge, to: Area): int
    requires Lookup(g, step.toArea, to).Some?
  {
    step.avgMinutes + Lookup(g, step.toArea, to).value.avgMinutes
  }

  /** One turn of the loop over `via`: a step with a second leg replaces `best` when strictly shorter. */
  function TwoLegTurn(g: Graph, from: Area, to: Area, best: Option<Edge>, step: Edge): Option<Edge> {
    if Lookup(g, step.toArea, to).None? then best
    else if best.None? || ViaMinutes(g, step, to) < best.value.avgMinutes then
      Some(Edge(from, to, step.mode, ViaMinutes(g, step, to)))
    else best
  }

  /** `best` after the loop has seen `steps`. */
  function BestTwoLeg(g: Graph, from: Area, to: Area, steps: seq<Edge>): Option<Edge>
    decreases |steps|
  {
    if steps == [] then None
    else TwoLegTurn(g, from, to, BestTwoLeg(g, from, to, steps[..|steps| - 1]), steps[|steps| - 1])
  }

  /** `getShortestEdge`: same area, else the direct edge, else the best two-leg connection, else a bus. */
  function ShortestEdge(g: Graph, from: Area, to: Area): Edge {
    if from == to then Edge(from, to, Walk, 8)
    else if Lookup(g, from, to).Some? then Lookup(g, from, to).value
    else if from !in g || g[from] == [] then Edge(from, to, Bus, 35)
    else BestTwoLeg(g, from, to, g[from]).GetOr(Edge(from, to, Bus, 35))
  }

  /** The two-leg search finds a connection exactly when some step has a second leg, and it joins the two areas. */
  lemma {:induction false} BestTwoLegFound(g: Graph, from: Area, to: Area, steps: seq<Edge>)
    ensures BestTwoLeg(g, from, to, steps).None? <==> forall s :: s in steps ==> Lookup(g, s.toArea, to).None?
    ensures BestTwoLeg(g, from, to, steps).Some? ==>
              BestTwoLeg(g, from, to, steps).value.fromArea == from && BestTwoLeg(g, from, to, steps).value.toArea == to
    decreases |steps|
  {
    if steps != [] {
      var init := steps[..|steps| - 1];
      BestTwoLegFound(g, from, to, init);
      assert steps == init + [steps[|steps| - 1]];
      assert forall s :: s in steps <==> s in init || s == steps[|steps| - 1];
    }
  }

  /** The connection found takes no more minutes than any step with a second leg. */
  lemma {:induction false} BestTwoLegLeast(g: Graph, from: Area, to: Area, steps: seq<Edge>)
    ensures BestTwoLeg(g, from, to, steps).Some? ==>
              forall s :: s in steps && Lookup(g, s.toArea, to).Some? ==>
                BestTwoLeg(g, from, to, steps).value.avgMinutes <= ViaMinutes(g, s, to)
    decreases |steps|
  {
    if steps != [] {
      var init := steps[..|steps| - 1];
      BestTwoLegLeast(g, from, to, init);
      BestTwoLegFound(g, from, to, init);
      assert steps == init + [steps[|steps| - 1]];
      assert forall s :: s in steps <==> s in init || s == steps[|steps| - 1];
    }
  }

  /**
   * `b` has the minutes and the mode of a step that reaches those minutes
   * through a second leg, and every earlier step with a second leg takes longer.
   */
  predicate FirstBest(g: Graph, to: Area, steps: seq<Edge>, b: Edge) {
    exists k :: 0 <= k < |steps| && Lookup(g, steps[k].toArea, to).Some?
      && b.mode == steps[k].mode && b.avgMinutes == ViaMinutes(g, steps[k], to)
      && forall j :: 0 <= j < k && Lookup(g, steps[j].toArea, to).Some? ==> b.avgMinutes < ViaMinutes(g, steps[j], to)
  }

  /** The connection found is the first step that reaches its minutes. */
  lemma {:induction false} BestTwoLegFirst(g: Graph, from: Area, to: Area, steps: seq<Edge>)
    ensures BestTwoLeg(g, from, to, steps).Some? ==> FirstBest(g, to, steps, BestTwoLeg(g, from, to, steps).value)
    decreases |steps|
  {
    if steps != [] {
      var init := steps[..|steps| - 1];
      var last := steps[|steps| - 1];
      BestTwoLegFirst(g, from, to, init);
      var prev := BestTwoLeg(g, from, to, init);
      if Lookup(g, last.toArea, to).Some? && (prev.None? || ViaMinutes(g, last, to) < prev.value.avgMinutes) {
        FirstBestByLast(g, from, to, steps);
      } else if prev.Some? {
        FirstBestKept(g, from, to, steps);
      }
    }
  }

  /** A last step shorter than every earlier one is the first to reach its minutes. */
  lemma FirstBestByLast(g: Graph, from: Area, to: Area, steps: seq<Edge>)
    requires steps != [] && Lookup(g, steps[|steps| - 1].toArea, to).Some?
    requires var prev := BestTwoLeg(g, from, to, steps[..|steps| - 1]);
             prev.None? || ViaMinutes(g, steps[|steps| - 1], to) < prev.value.avgMinutes
    ensures BestTwoLeg(g, from, to, steps).Some? && FirstBest(g, to, steps, BestTwoLeg(g, from, to, steps).value)
  {
    var init := steps[..|steps| - 1];
    var k := |init|;
    var b := Edge(from, to, steps[k].mode, ViaMinutes(g, steps[k], to));
    assert BestTwoLeg(g, from, to, steps) == Some(b);
    BestTwoLegFound(g, from, to, init);
    BestTwoLegLeast(g, from, to, init);
    forall j | 0 <= j < k && Lookup(g, steps[j].toArea, to).Some? ensures b.avgMinutes < ViaMinutes(g, steps[j], to) {
      assert steps[j] == init[j];
      assert steps[j] in init;
    }
  }

  /** A later step does not change which step was first. */
  lemma FirstBestKept(g: Graph, from: Area, to: Area, steps: seq<Edge>)
    requires steps != []
    requires var prev := BestTwoLeg(g, from, to, steps[..|steps| - 1]);
             prev.Some? && FirstBest(g, to, steps[..|steps| - 1], prev.value)
             && (Lookup(g, steps[|steps| - 1].toArea, to).None? || ViaMinutes(g, steps[|steps| - 1], to) >= prev.value.avgMinutes)
    ensures BestTwoLeg(g, from, to, steps).Some? && FirstBest(g, to, steps, BestTwoLeg(g, from, to, steps).value)
  {
    var init := steps[..|steps| - 1];
    var b := BestTwoLeg(g, from, to, init).value;
    assert BestTwoLeg(g, from, to, steps) == Some(b);
    var k :| 0 <= k < |init| && Lookup(g, init[k].toArea, to).Some?
             && b.mode == init[k].mode && b.avgMinutes == ViaMinutes(g, init[k], to)
             && forall j :: 0 <= j < k && Lookup(g, init[j].toArea, to).Some? ==> b.avgMinutes < ViaMinutes(g, init[j], to);
    assert steps[k] == init[k];
    forall j | 0 <= j < k && Lookup(g, steps[j].toArea, to).Some? ensures b.avgMinutes < ViaMinutes(g, steps[j], to) {
      assert steps[j] == init[j];
    }
  }

  /** The loop of `getShortestEdge` over the neighbours of `from`. */
  method TwoLegSearch(g: Graph, from: Area, to: Area, via: Neighbours) returns (best: Option<Edge>)
    ensures best == BestTwoLeg(g, from, to, via)
  {
    best := None;
    for i := 0 to |via|
      invariant best == BestTwoLeg(g, from, to, via[..i])
    {
      var step := via[i];
      var second := Lookup(g, step.toArea, to);
      assert via[..i + 1][..i] == via[..i] && via[..i + 1][i] == step;
      assert BestTwoLeg(g, from, to, via[..i + 1]) == TwoLegTurn(g, from, to, best, step);
      if second.None? {
        continue;
      }
      var minutes := step.avgMinutes + second.value.avgMinutes;
      if best.None? || minutes < best.value.avgMinutes {
        best := Some(Edge(from, to, step.mode, minutes));
      }
    }
    assert via[..|via|] == via;
  }

  /** `getShortestEdge`. */
  method GetShortestEdge(g: Graph, from: Area, to: Area) returns (e: Edge)
    ensures e == ShortestEdge(g, from, to)
  {
    if from == to {
      return Edge(from, to, Walk, 8);
    }
    var direct := Lookup(g, from, to);
    if direct.Some? {
      return direct.value;
    }
    if from !in g || g[from] == [] {
      return Edge(from, to, Bus, 35);
    }
    var best := TwoLegSearch(g, from, to, g[from]);
    e := best.GetOr(Edge(from, to, Bus, 35));
  }

  /**
   * The priorities of `getShortestEdge` on a built graph: a walk of 8 minutes
   * within an area, else the stored edge, which leaves `from` for `to`, else
   * the least-minutes two-leg connection, else a bus of 35 minutes.
   */
  lemma ShortestEdgePriority(edges: seq<Edge>, from: Area, to: Area)
    ensures var g := GraphOf(edges);
            var r := ShortestEdge(g, from, to);
            r.fromArea == from && r.toArea == to
            && (from == to ==> r == Edge(from, to, Walk, 8))
            && (from != to && Lookup(g, from, to).Some? ==> r == Lookup(g, from, to).value)
            && (from != to && Lookup(g, from, to).None? ==>
                  if exists s :: from in g && s in g[from] && Lookup(g, s.toArea, to).Some? then
                    forall s :: from in g && s in g[from] && Lookup(g, s.toArea, to).Some? ==> r.avgMinutes <= ViaMinutes(g, s, to)
                  else r == Edge(from, to, Bus, 35))
  {
    var g := GraphOf(edges);
    GraphSymmetric(edges);
    if from in g {
      BestTwoLegFound(g, from, to, g[from]);
      BestTwoLegLeast(g, from, to, g[from]);
    }
  }

  // ------------------------------------------------------------ generateGrogTrot

  /** `Math.max(3, Math.min(8, n))`. */
  function ClampStops(n: int): (r: int)
    ensures 3 <= r <= 8
    ensures 3 <= n <= 8 ==> r == n
    ensures n < 3 ==> r == 3
    ensures n > 8 ==> r == 8
  {
    var atMost8 := if n < 8 then n else 8;
    if 3 < atMost8 then atMost8 else 3
  }

  /** The pool-bar and reservation exclusions the input asks for. */
  predicate PassesExclusions(input: CrawlGenerateInput, v: Venue) {
    !(input.excludePoolBars && v.poolBar) && !(input.excludeReservationRequired && v.requiresReservation)
  }

  /** No vibes asked for, or the venue has one of them. */
  predicate MatchesVibes(input: CrawlGenerateInput, v: Venue) {
    input.vibes == [] || exists vibe :: vibe in input.vibes && vibe in v.vibes
  }

  function Strict(input: CrawlGenerateInput): Venue -> bool {
    (v: Venue) => PassesExclusions(input, v) && MatchesVibes(input, v)
  }

  function Relaxed(input: CrawlGenerateInput): Venue -> bool {
    (v: Venue) => PassesExclusions(input, v)
  }

  /** The candidate venues: the vibe filter is dropped when it leaves fewer venues than stops. */
  function Candidates(venues: seq<Venue>, input: CrawlGenerateInput): (r: seq<Venue>)
    ensures |r| <= |venues|
    ensures forall v :: v in r ==> v in venues && PassesExclusions(input, v)
  {
    var strict := Filter(venues, Strict(input));
    if |strict| < ClampStops(input.numberOfStops) then Filter(venues, Relaxed(input)) else strict
  }

  /**
   * The candidates are the venues, in their order, that pass the exclusions
   * and, unless too few venues match them, the vibes.
   */
  lemma CandidatesExactly(venues: seq<Venue>, input: CrawlGenerateInput)
    ensures IsSubsequence(Candidates(venues, input), venues)
    ensures forall v :: v in Candidates(venues, input) <==>
              v in venues && PassesExclusions(input, v)
              && (MatchesVibes(input, v) || |Filter(venues, Strict(input))| < ClampStops(input.numberOfStops))
  {
    FilterKeeps(venues, Strict(input));
    FilterKeeps(venues, Relaxed(input));
    FilterSubsequence(venues, Strict(input));
    FilterSubsequence(venues, Relaxed(input));
  }

  function InArea(a: Area): Venue -> bool {
    (v: Venue) => v.area == a
  }

  /** `Number(requiresReservation)`: the starters' sort key. */
  function ReservationKey(): Venue -> real {
    (v: Venue) => if v.requiresReservation then 1.0 else 0.0
  }

  /** The candidates in the starting area, those without reservations first. */
  function Starters(candidates: seq<Venue>, start: Area): seq<Venue> {
    SortBy(Filter(candidates, InArea(start)), ReservationKey())
  }

  /** The first stop: the first starter, or the first candidate when no venue is in the starting area. */
  function FirstStop(candidates: seq<Venue>, start: Area): Venue
    requires candidates != []
  {
    var starters := Starters(candidates, start);
    if starters != [] then starters[0] else candidates[0]
  }

  /**
   * The first stop is the first candidate in the starting area that needs no
   * reservation; failing that, the first one in the area; failing that, the
   * first candidate.
   */
  lemma FirstStopPrefers(candidates: seq<Venue>, start: Area)
    requires candidates != []
    ensures var first := FirstStop(candidates, start);
            var inArea := Filter(candidates, InArea(start));
            first in candidates
            && (WithKey(inArea, ReservationKey(), 0.0) != [] ==> first == WithKey(inArea, ReservationKey(), 0.0)[0])
            && (WithKey(inArea, ReservationKey(), 0.0) == [] && inArea != [] ==> first == inArea[0])
            && (inArea == [] ==> first == candidates[0])
  {
    var inArea := Filter(candidates, InArea(start));
    var starters := Starters(candidates, start);
    if inArea != [] {
      var key := ReservationKey();
      SortByFirstIsLeast(inArea, key);
      SortByStable(inArea, key, key(starters[0]));
      WithKeyHead(starters, key);
      assert inArea[0] in inArea;
      if WithKey(inArea, key, 0.0) != [] {
        WithKeyMembers(inArea, key, 0.0);
        assert WithKey(inArea, key, 0.0)[0] in WithKey(inArea, key, 0.0);
        assert key(starters[0]) == 0.0;
      } else {
        WithKeyMembers(inArea, key, 1.0);
        assert key(starters[0]) == 1.0;
        assert forall v :: v in inArea ==> key(v) == 1.0 by {
          WithKeyMembers(inArea, key, 0.0);
        }
        WithKeyAll(inArea, key, 1.0);
      }
    }
  }

  /** The head of a non-empty sequence heads the elements with its key. */
  lemma WithKeyHead<T>(s: seq<T>, key: T -> real)
    requires s != []
    ensures WithKey(s, key, key(s[0])) != [] && WithKey(s, key, key(s[0]))[0] == s[0]
  {
  }

  lemma {:induction false} WithKeyMembers<T>(s: seq<T>, key: T -> real, k: real)
    ensures forall x :: x in WithKey(s, key, k) <==> x in s && key(x) == k
  {
    if s != [] {
      WithKeyMembers(s[1..], key, k);
      assert forall x :: x in s <==> x == s[0] || x in s[1..];
    }
  }

  lemma {:induction false} WithKeyAll<T>(s: seq<T>, key: T -> real, k: real)
    requires forall x :: x in s ==> key(x) == k
    ensures WithKey(s, key, k) == s
  {
    if s != [] {
      WithKeyAll(s[1..], key, k);
      assert s == [s[0]] + s[1..];
    }
  }

  /** Not yet chosen: no chosen venue has the same id. */
  function NotChosen(chosen: seq<Venue>): Venue -> bool {
    (c: Venue) => forall p :: p in chosen ==> p.id != c.id
  }

  function Remaining(candidates: seq<Venue>, chosen: seq<Venue>): seq<Venue> {
    Filter(candidates, NotChosen(chosen))
  }

  /** The greedy score of going from `current` to `v`: the edge's minutes plus 3 for staying in the area. */
  function StepScore(g: Graph, current: Venue, v: Venue): int {
    ShortestEdge(g, current.area, v.area).avgMinutes + (if v.area == current.area then 3 else 0)
  }

  /**
   * The comparator of the greedy sort as a key: the score first, then venues
   * without reservations first (scores are whole minutes).
   */
  function NextKey(g: Graph, current: Venue): Venue -> real {
    (v: Venue) => (2 * StepScore(g, current, v) + (if v.requiresReservation then 1 else 0)) as real
  }

  /** The next stop: the head of the remaining candidates sorted by the greedy key from the last stop. */
  function NextStop(g: Graph, candidates: seq<Venue>, chosen: seq<Venue>): Venue
    requires chosen != [] && Remaining(candidates, chosen) != []
  {
    SortBy(Remaining(candidates, chosen), NextKey(g, chosen[|chosen| - 1]))[0]
  }

  /**
   * `n` has the least score from `current` among `rem`, and among those with
   * that score it is one without a reservation whenever there is one.
   */
  predicate Nearest(g: Graph, current: Venue, n: Venue, rem: seq<Venue>) {
    forall x :: x in rem ==>
      StepScore(g, current, n) < StepScore(g, current, x)
      || (StepScore(g, current, n) == StepScore(g, current, x) && (!n.requiresReservation || x.requiresReservation))
  }

  /** The next stop is a remaining candidate nearest to the last stop. */
  lemma NextStopIsNearest(g: Graph, candidates: seq<Venue>, chosen: seq<Venue>)
    requires chosen != [] && Remaining(candidates, chosen) != []
    ensures var n := NextStop(g, candidates, chosen);
            n in candidates && NotChosen(chosen)(n)
            && Nearest(g, chosen[|chosen| - 1], n, Remaining(candidates, chosen))
  {
    var rem := Remaining(candidates, chosen);
    var current := chosen[|chosen| - 1];
    var key := NextKey(g, current);
    SortByFirstIsLeast(rem, key);
    var n := NextStop(g, candidates, chosen);
    forall x | x in rem
      ensures StepScore(g, current, n) < StepScore(g, current, x)
              || (StepScore(g, current, n) == StepScore(g, current, x) && (!n.requiresReservation || x.requiresReservation))
    {
      assert key(n) <= key(x);
    }
  }

  /** Each stop after the first is the greedy pick from the stops before it. */
  ghost predicate FollowsGreedy(g: Graph, candidates: seq<Venue>, chosen: seq<Venue>) {
    forall k :: 1 <= k < |chosen| ==>
      Remaining(candidates, chosen[..k]) != [] && chosen[k] == NextStop(g, candidates, chosen[..k])
  }

  /**
   * What the loop of `generateGrogTrot` chooses: the first stop, then one
   * next stop after another until there are `clamped` stops or no candidate
   * is left.
   */

  ghost predicate GreedyTour(g: Graph, candidates: seq<Venue>, start: Area, clamped: int, chosen: seq<Venue>) {
    |chosen| <= clamped
    && (chosen == [] <==> candidates == [])
    && (chosen != [] ==> chosen[0] == FirstStop(candidates, start))
    && FollowsGreedy(g, candidates, chosen)
    && (|chosen| == clamped || Remaining(candidates, chosen) == [])
  }

  function StopsOf(chosen: seq<Venue>): seq<CrawlStop> {
    seq(|chosen|, i requires 0 <= i < |chosen| => CrawlStop(chosen[i], i + 1))
  }

  function VenuesOf(stops: seq<CrawlStop>): seq<Venue> {
    seq(|stops|, i requires 0 <= i < |stops| => stops[i].venue)
  }

  lemma StopsVenues(chosen: seq<Venue>)
    ensures VenuesOf(StopsOf(chosen)) == chosen
    ensures forall i :: 0 <= i < |chosen| ==> StopsOf(chosen)[i].order == i + 1
  {
  }

  function Nudge(m: Mode): string {
    match m
    case Walk => "Follow Disney wayfinding signs and keep your park map open."
    case Monorail => "Head to the monorail platform and verify the destination loop before boarding."
    case Skyliner => "Follow signs to Disney Skyliner, then transfer lines if posted on station boards."
    case Boat => "Use the water launch dock and confirm the resort/park name with the cast member."
    case Bus => "Go to the bus loop, match the route name on the digital board, and board that bay."
  }

  /** `toDirectionText`. */
  function DirectionText(from: Venue, to: Venue, leg: Edge): string {
    "From " + from.name + ", go to " + to.locationDetail + ". Use " + ModeText(leg.mode)
    + " (" + IntToString(leg.avgMinutes) + " min). " + Nudge(leg.mode)
  }

  /** The leg between two consecutive stops, over the shortest edge between their areas. */
  function LegBetween(g: Graph, from: Venue, to: Venue): CrawlLeg {
    var e := ShortestEdge(g, from.area, to.area);
    CrawlLeg(from.id, to.id, e.mode, e.avgMinutes, DirectionText(from, to, e))
  }

  function LegMinutes(): CrawlLeg -> int {
    (l: CrawlLeg) => l.minutes
  }

  function TotalMinutes(legs: seq<CrawlLeg>): int {
    SumBy(legs, LegMinutes())
  }

  /** The `vibes` text with underscores shown as spaces. */
  function VibeWords(v: Vibe): string {
    ReplaceChar(VibeText(v), '_', ' ')
  }

  /** `vibeLabel`. */
  function VibeLabel(vibes: seq<Vibe>): string {
    if vibes == [] then "Mixed Magic"
    else Join(seq(|vibes|, i requires 0 <= i < |vibes| => VibeWords(vibes[i])), " + ")
  }

  /** The loop of `generateGrogTrot` that pushes into `chosen`, after the first stop. */
  method ChooseStops(g: Graph, candidates: seq<Venue>, start: Area, clampedStops: int) returns (chosen: seq<Venue>)
    requires clampedStops >= 1
    ensures GreedyTour(g, candidates, start, clampedStops, chosen)
  {
    chosen := [];
    var starters := Starters(candidates, start);
    if starters != [] {
      chosen := chosen + [starters[0]];
    } else if candidates != [] {
      chosen := chosen + [candidates[0]];
    }
    while |chosen| < clampedStops
      invariant |chosen| <= clampedStops
      invariant chosen == [] <==> candidates == []
      invariant chosen != [] ==> chosen[0] == FirstStop(candidates, start)
      invariant forall k :: 1 <= k < |chosen| ==>
                  Remaining(candidates, chosen[..k]) != [] && chosen[k] == NextStop(g, candidates, chosen[..k])
      decreases clampedStops - |chosen|
    {
      var next := PickNext(g, candidates, chosen);
      if next.None? {
        break;
      }
      ghost var before := chosen;
      chosen := chosen + [next.value];
      PrefixOfPush(before, next.value);
      forall k | 1 <= k < |chosen|
        ensures Remaining(candidates, chosen[..k]) != [] && chosen[k] == NextStop(g, candidates, chosen[..k])
      {
        if k < |before| {
          assert chosen[k] == before[k];
        } else {
          assert chosen[..k] == before;
        }
      }
    }
  }

  /** One turn of that loop: the remaining candidates, sorted from the last stop, and their head. */
  method PickNext(g: Graph, candidates: seq<Venue>, chosen: seq<Venue>) returns (next: Option<Venue>)
    requires chosen == [] ==> candidates == []
    ensures next.None? <==> Remaining(candidates, chosen) == []
    ensures next.Some? ==> chosen != [] && Remaining(candidates, chosen) != [] && next.value == NextStop(g, candidates, chosen)
  {
    var remaining := Filter(candidates, NotChosen(chosen));
    if remaining == [] {
      return None;
    }
    var current := chosen[|chosen| - 1];
    remaining := SortBy(remaining, NextKey(g, current));
    return Some(remaining[0]);
  }

  lemma PrefixOfPush<T>(s: seq<T>, x: T)
    ensures (s + [x])[..|s|] == s
    ensures forall k :: 0 <= k <= |s| ==> (s + [x])[..k] == s[..k]
  {
  }

  /** One leg: the shortest edge between the two stops' areas and its directions. */
  method BuildLeg(g: Graph, from: Venue, to: Venue) returns (leg: CrawlLeg)
    ensures leg == LegBetween(g, from, to)
  {
    var edge := GetShortestEdge(g, from.area, to.area);
    leg := CrawlLeg(from.id, to.id, edge.mode, edge.avgMinutes, DirectionText(from, to, edge));
  }

  /** The loop of `generateGrogTrot` over consecutive stops, summing the minutes. */
  method BuildLegs(g: Graph, stops: seq<CrawlStop>) returns (legs: seq<CrawlLeg>, totalTravelMinutes: int)
    ensures |legs| == if stops == [] then 0 else |stops| - 1
    ensures forall k :: 0 <= k < |legs| ==> legs[k] == LegBetween(g, stops[k].venue, stops[k + 1].venue)
    ensures totalTravelMinutes == TotalMinutes(legs)
  {
    legs := [];
    totalTravelMinutes := 0;
    if stops == [] {
      return;
    }
    ghost var between := (a: CrawlStop, b: CrawlStop) => LegBetween(g, a.venue, b.venue);
    while |legs| + 1 < |stops|
      invariant PairwiseMap(legs, stops, between)
      invariant totalTravelMinutes == TotalMinutes(legs)
    {
      var i := |legs|;
      var leg := BuildLeg(g, stops[i].venue, stops[i + 1].venue);
      totalTravelMinutes := totalTravelMinutes + leg.minutes;
      SumByPush(legs, LegMinutes(), leg);
      PairwiseMapPush(legs, stops, between, leg);
      legs := legs + [leg];
    }
  }

  /**
   * `generateGrogTrot` without `estimatedHours`: the candidates, the greedy
   * tour, and the legs between consecutive stops with their minutes summed.
   */
  method GenerateGrogTrot(g: Graph, venues: seq<Venue>, input: CrawlGenerateInput) returns (crawl: GeneratedCrawl)
    ensures GreedyTour(g, Candidates(venues, input), input.startingArea, ClampStops(input.numberOfStops), VenuesOf(crawl.stops))
    ensures forall i :: 0 <= i < |crawl.stops| ==> crawl.stops[i].order == i + 1
    ensures |crawl.legs| == if crawl.stops == [] then 0 else |crawl.stops| - 1
    ensures forall i :: 0 <= i < |crawl.legs| ==>
              crawl.legs[i] == LegBetween(g, crawl.stops[i].venue, crawl.stops[i + 1].venue)
    ensures crawl.totalTravelMinutes == TotalMinutes(crawl.legs)
    ensures crawl.vibeLabel == VibeLabel(input.vibes) && crawl.title == "Goofy's Grog Trot: " + VibeLabel(input.vibes)
  {
    var clampedStops := ClampStops(input.numberOfStops);
    var candidates := Filter(venues, Strict(input));
    if |candidates| < clampedStops {
      candidates := Filter(venues, Relaxed(input));
    }
    assert candidates == Candidates(venues, input);
    var chosen := ChooseStops(g, candidates, input.startingArea, clampedStops);
    var stops := StopsOf(chosen);
    StopsVenues(chosen);
    var legs, totalTravelMinutes := BuildLegs(g, stops);
    var vibeLabel := VibeLabel(input.vibes);
    crawl := GeneratedCrawl("Goofy's Grog Trot: " + vibeLabel, vibeLabel, stops, legs, totalTravelMinutes);
  }

  // ------------------------------------------------------------ what the tour promises

  predicate DistinctIds(vs: seq<Venue>) {
    forall i, j :: 0 <= i < j < |vs| ==> vs[i].id != vs[j].id
  }

  /** Every stop is a candidate. */
  lemma TourFromCandidates(g: Graph, candidates: seq<Venue>, start: Area, clamped: int, chosen: seq<Venue>)
    requires GreedyTour(g, candidates, start, clamped, chosen)
    ensures forall v :: v in chosen ==> v in candidates
  {
    forall i | 0 <= i < |chosen| ensures chosen[i] in candidates {
      if i == 0 {
        FirstStopPrefers(candidates, start);
      } else {
        NextStopIsNearest(g, candidates, chosen[..i]);
      }
    }
  }

  /** No venue is visited twice. */
  lemma TourDistinct(g: Graph, candidates: seq<Venue>, start: Area, clamped: int, chosen: seq<Venue>)
    requires GreedyTour(g, candidates, start, clamped, chosen)
    ensures DistinctIds(chosen)
  {
    forall i, j | 0 <= i < j < |chosen| ensures chosen[i].id != chosen[j].id {
      NextStopIsNearest(g, candidates, chosen[..j]);
      assert chosen[i] in chosen[..j];
    }
  }

  /**
   * Every stop of a generated crawl is a listed venue that passes the
   * pool-bar and reservation exclusions, even when the vibe filter was
   * dropped, and it matches the vibes unless too few venues did.
   */
  lemma TourHonoursExclusions(g: Graph, venues: seq<Venue>, input: CrawlGenerateInput, chosen: seq<Venue>)
    requires GreedyTour(g, Candidates(venues, input), input.startingArea, ClampStops(input.numberOfStops), chosen)
    ensures forall v :: v in chosen ==>
              v in venues && PassesExclusions(input, v)
              && (MatchesVibes(input, v) || |Filter(venues, Strict(input))| < ClampStops(input.numberOfStops))
  {
    TourFromCandidates(g, Candidates(venues, input), input.startingArea, ClampStops(input.numberOfStops), chosen);
    CandidatesExactly(venues, input);
  }

  /**
   * The crawl has at most the clamped number of stops and at most as many as
   * there are candidates; with candidates of distinct ids it has exactly the
   * clamped number whenever there are that many candidates.
   */
  lemma TourLength(g: Graph, candidates: seq<Venue>, start: Area, clamped: int, chosen: seq<Venue>)
    requires GreedyTour(g, candidates, start, clamped, chosen)
    ensures |chosen| <= clamped && |chosen| <= |candidates|
    ensures DistinctIds(candidates) && clamped <= |candidates| ==> |chosen| == clamped
  {
    TourFromCandidates(g, candidates, start, clamped, chosen);
    TourDistinct(g, candidates, start, clamped, chosen);
    DistinctIdsNoDup(chosen);
    DistinctWithin(chosen, candidates);
    if DistinctIds(candidates) && clamped <= |candidates| && |chosen| < clamped {
      var rest := Remaining(candidates, chosen);
      assert rest == [];
      FilterKeeps(candidates, NotChosen(chosen));
      forall c | c in candidates ensures c in chosen {
        assert !NotChosen(chosen)(c);
        var p :| p in chosen && p.id == c.id;
        SameIdSameVenue(candidates, p, c);
      }
      DistinctIdsNoDup(candidates);
      DistinctWithin(candidates, chosen);
    }
  }

  lemma DistinctIdsNoDup(vs: seq<Venue>)
    requires DistinctIds(vs)
    ensures NoDup(vs)
  {
  }

  lemma SameIdSameVenue(vs: seq<Venue>, a: Venue, b: Venue)
    requires DistinctIds(vs) && a in vs && b in vs && a.id == b.id
    ensures a == b
  {
    var i :| 0 <= i < |vs| && vs[i] == a;
    var j :| 0 <= j < |vs| && vs[j] == b;
    assert !(i < j) && !(j < i);
  }

  /**
   * Each stop after the first has the least score from the stop before it
   * among the candidates not yet chosen, preferring no reservation on a tie.
   */
  lemma TourGreedy(g: Graph, candidates: seq<Venue>, start: Area, clamped: int, chosen: seq<Venue>)
    requires GreedyTour(g, candidates, start, clamped, chosen)
    ensures forall k :: 1 <= k < |chosen| ==> Nearest(g, chosen[k - 1], chosen[k], Remaining(candidates, chosen[..k]))
  {
    forall k | 1 <= k < |chosen| ensures Nearest(g, chosen[k - 1], chosen[k], Remaining(candidates, chosen[..k])) {
      StepIsNearest(g, candidates, chosen, k);
    }
  }

  lemma StepIsNearest(g: Graph, candidates: seq<Venue>, chosen: seq<Venue>, k: int)
    requires 1 <= k < |chosen|
    requires Remaining(candidates, chosen[..k]) != [] && chosen[k] == NextStop(g, candidates, chosen[..k])
    ensures Nearest(g, chosen[k - 1], chosen[k], Remaining(candidates, chosen[..k]))
  {
    var before := chosen[..k];
    NextStopIsNearest(g, candidates, before);
    assert before[|before| - 1] == chosen[k - 1];
    assert NextStop(g, candidates, before) == chosen[k];
  }

  /** The tour is determined by its inputs: two tours of the same candidates agree. */
  lemma GreedyTourUnique(g: Graph, candidates: seq<Venue>, start: Area, clamped: int, t1: seq<Venue>, t2: seq<Venue>)
    requires GreedyTour(g, candidates, start, clamped, t1) && GreedyTour(g, candidates, start, clamped, t2)
    ensures t1 == t2
  {
    if |t1| <= |t2| {
      TourPrefixesAgree(g, candidates, t1, t2, |t1|);
      TourGoesOn(g, candidates, start, clamped, t1, t2);
      assert t1 == t2[..|t1|];
    } else {
      TourPrefixesAgree(g, candidates, t2, t1, |t2|);
      TourGoesOn(g, candidates, start, clamped, t2, t1);
    }
  }

  /** A tour cannot stop where a tour of the same candidates goes on. */
  lemma TourGoesOn(g: Graph, candidates: seq<Venue>, start: Area, clamped: int, t1: seq<Venue>, t2: seq<Venue>)
    requires GreedyTour(g, candidates, start, clamped, t1) && GreedyTour(g, candidates, start, clamped, t2)
    requires |t1| <= |t2| && t2[..|t1|] == t1
    ensures |t1| == |t2|
  {
  }

  lemma TourPrefixesAgree(g: Graph, candidates: seq<Venue>, t1: seq<Venue>, t2: seq<Venue>, k: nat)
    requires FollowsGreedy(g, candidates, t1) && FollowsGreedy(g, candidates, t2)
    requires k <= |t1| && k <= |t2| && (k >= 1 ==> t1[0] == t2[0])
    ensures t1[..k] == t2[..k]
  {
    var step := GreedyStep(g, candidates);
    assert forall j :: 1 <= j < |t1| ==> step(t1[..j]) == Some(t1[j]);
    assert forall j :: 1 <= j < |t2| ==> step(t2[..j]) == Some(t2[j]);
    StepsAgree(t1, t2, step, k);
  }

  /** The greedy pick as a step function, `None` where there is none. */
  function GreedyStep(g: Graph, candidates: seq<Venue>): seq<Venue> -> Option<Venue> {
    (chosen: seq<Venue>) =>
      if chosen != [] && Remaining(candidates, chosen) != [] then Some(NextStop(g, candidates, chosen)) else None
  }

  /** Two sequences that start alike and are each built by the same step function agree. */
  lemma {:induction false} StepsAgree<T>(t1: seq<T>, t2: seq<T>, step: seq<T> -> Option<T>, k: nat)
    requires forall j :: 1 <= j < |t1| ==> step(t1[..j]) == Some(t1[j])
    requires forall j :: 1 <= j < |t2| ==> step(t2[..j]) == Some(t2[j])
    requires k <= |t1| && k <= |t2| && (k >= 1 ==> t1[0] == t2[0])
    ensures t1[..k] == t2[..k]
  {
    if k == 1 {
      assert t1[..1] == [t1[0]] && t2[..1] == [t2[0]];
    } else if k > 1 {
      StepsAgree(t1, t2, step, k - 1);
      assert step(t1[..k - 1]) == Some(t1[k - 1]);
      TakeStep(t1, k);
      TakeStep(t2, k);
    }
  }

  /** Underscores are shown as spaces: the label has none, whatever the vibes. */
  lemma VibeLabelReadable(vibes: seq<Vibe>)
    ensures '_' !in VibeLabel(vibes)
  {
    if vibes != [] {
      var words := seq(|vibes|, i requires 0 <= i < |vibes| => VibeWords(vibes[i]));
      forall k | 0 <= k < |words| ensures '_' !in words[k] {
        var w := VibeWords(vibes[k]);
        assert forall i :: 0 <= i < |w| ==> w[i] != '_';
      }
      JoinAvoids(words, " + ", '_');
    }
  }

  /** The label lists the vibes in order, joined by " + ". */
  lemma VibeLabelCons(v: Vibe, rest: seq<Vibe>)
    ensures VibeLabel([v] + rest) == if rest == [] then VibeWords(v) else VibeWords(v) + " + " + VibeLabel(rest)
  {
    var vibes := [v] + rest;
    var words := seq(|vibes|, i requires 0 <= i < |vibes| => VibeWords(vibes[i]));
    if rest != [] {
      assert words[1..] == seq(|rest|, i requires 0 <= i < |rest| => VibeWords(rest[i]));
    }
  }

  // ------------------------------------------------------------ getGrogTrotTemplates

  datatype Template = Template(slug: string, title: string, stops: seq<Venue>)

  /** `templateMap`, in its key order. */
  const TemplateMap: seq<(string, seq<string>)> := [
    ("tiki-night", ["mr-tambu-lounge", "mr-trader-sams-terrace", "mr-trader-sams-grotto", "mr-outer-rim",
                    "mr-california-grill-lounge"]),
    ("world-showcase-tour", ["ep-choza-de-margarita", "ep-la-cava-del-tequila", "ep-rose-and-crown-pub",
                             "ep-tutto-gusto", "ep-spice-road-table"]),
    ("speakeasy-crawl", ["ds-enzos-hideaway", "ds-the-edison", "er-abracadabar", "ds-jock-lindseys", "er-belle-vue"]),
    ("resort-hop", ["mr-enchanted-rose", "mr-tambu-lounge", "mr-outer-rim", "or-territory-lounge", "or-geyser-point"]),
    ("galaxy-to-galaxy", ["hs-ogas-cantina", "hs-baseline-tap-house", "hs-brown-derby-lounge", "hs-tune-in-lounge",
                          "hs-sunshine-day-bar"])
  ]

  /** `venues.find((venue) => venue.id === id)`. */
  function FindVenue(vs: seq<Venue>, id: string): (r: Option<Venue>)
    ensures r.Some? ==> r.value in vs && r.value.id == id
    ensures r.None? <==> forall v :: v in vs ==> v.id != id
  {
    if vs == [] then None else if vs[0].id == id then Some(vs[0]) else FindVenue(vs[1..], id)
  }

  function Known(vs: seq<Venue>): string -> bool {
    (id: string) => FindVenue(vs, id).Some?
  }

  /** `ids.map(find).filter(Boolean)`. */
  function FindVenues(ids: seq<string>, vs: seq<Venue>): seq<Venue> {
    if ids == [] then []
    else (if FindVenue(vs, ids[0]).Some? then [FindVenue(vs, ids[0]).value] else []) + FindVenues(ids[1..], vs)
  }

  /** A template's stops: one venue per known id, in the template's order, each with that id; unknown ids are skipped. */
  lemma {:induction false} FindVenuesExactly(ids: seq<string>, vs: seq<Venue>)
    ensures var known := Filter(ids, Known(vs));
            |FindVenues(ids, vs)| == |known|
            && forall k :: 0 <= k < |known| ==>
                 FindVenues(ids, vs)[k] in vs && FindVenues(ids, vs)[k].id == known[k]
  {
    if ids != [] {
      FindVenuesExactly(ids[1..], vs);
      var known := Filter(ids, Known(vs));
      var rest := Filter(ids[1..], Known(vs));
      if FindVenue(vs, ids[0]).Some? {
        assert known == [ids[0]] + rest;
        forall k | 0 < k < |known| ensures FindVenues(ids, vs)[k] == FindVenues(ids[1..], vs)[k - 1] && known[k] == rest[k - 1] {
        }
      } else {
        assert known == rest;
      }
    }
  }

  /** A letter, digit or underscore: a regular-expression word character. */
  predicate IsWordChar(c: char) {
    'a' <= c <= 'z' || 'A' <= c <= 'Z' || '0' <= c <= '9' || c == '_'
  }

  /** Whether `s[i]` is a word character with no word character before it: a match of `\b\w`. */
  predicate StartsWord(s: string, i: int, afterWord: bool)
    requires 0 <= i < |s|
  {
    IsWordChar(s[i]) && !(if i == 0 then afterWord else IsWordChar(s[i - 1]))
  }

  /**
   * `replace(/\b\w/g, (c) => c.toUpperCase())`, scanning left to right;
   * `afterWord` says whether a word character comes just before `s`.
   */
  function TitleWords(s: string, afterWord: bool): (r: string)
    ensures |r| == |s|
  {
    if s == [] then []
    else [if IsWordChar(s[0]) && !afterWord then UpperChar(s[0]) else s[0]] + TitleWords(s[1..], IsWordChar(s[0]))
  }

  /** Exactly the characters that start a word are upper-cased. */
  lemma {:induction false} TitleWordsAt(s: string, afterWord: bool)
    ensures forall i :: 0 <= i < |s| ==>
              TitleWords(s, afterWord)[i] == if StartsWord(s, i, afterWord) then UpperChar(s[i]) else s[i]
  {
    if s != [] {
      TitleWordsAt(s[1..], IsWordChar(s[0]));
      assert forall i :: 1 <= i < |s| ==>
        s[1..][i - 1] == s[i] && (StartsWord(s[1..], i - 1, IsWordChar(s[0])) == StartsWord(s, i, afterWord));
    }
  }

  function TemplateTitle(slug: string): string {
    TitleWords(ReplaceChar(slug, '-', ' '), false)
  }

  /** `getGrogTrotTemplates`. */
  function GrogTrotTemplates(vs: seq<Venue>): (r: seq<Template>)
    ensures |r| == |TemplateMap|
    ensures forall i :: 0 <= i < |r| ==>
              r[i].slug == TemplateMap[i].0 && r[i].title == TemplateTitle(TemplateMap[i].0)
              && r[i].stops == FindVenues(TemplateMap[i].1, vs)
  {
    seq(|TemplateMap|, i requires 0 <= i < |TemplateMap| =>
      Template(TemplateMap[i].0, TemplateTitle(TemplateMap[i].0), FindVenues(TemplateMap[i].1, vs)))
  }

  /** The five template titles, in order. */
  lemma TemplateTitles(vs: seq<Venue>)
    ensures var t := GrogTrotTemplates(vs);
            [t[0].title, t[1].title, t[2].title, t[3].title, t[4].title]
            == ["Tiki Night", "World Showcase Tour", "Speakeasy Crawl", "Resort Hop", "Galaxy To Galaxy"]
  {
    TikiNightTitle();
    WorldShowcaseTitle();
    SpeakeasyTitle();
    ResortHopTitle();
    GalaxyTitle();
  }

  lemma TikiNightTitle()
    ensures TemplateTitle("tiki-night") == "Tiki Night"
  {
    assert "tiki" + "-" + "night" == "tiki-night";
    TwoWordTitle("tiki", "night");
    TikiNightWords();
  }

  lemma TikiNightWords()
    ensures Capitalized("tiki") + " " + Capitalized("night") == "Tiki Night"
  {
    assert Capitalized("night") == "Night";
    assert Capitalized("tiki") == "Tiki";
    assert "Tiki" + " " + "Night" == "Tiki Night";
  }

  lemma WorldShowcaseTitle()
    ensures TemplateTitle("world-showcase-tour") == "World Showcase Tour"
  {
    assert "showcase" + "-" + "tour" == "showcase-tour";
    assert "world" + "-" + "showcase-tour" == "world-showcase-tour";
    ThreeWordTitle("world", "showcase", "tour");
    WorldShowcaseWords();
  }

  lemma WorldShowcaseWords()
    ensures Capitalized("world") + " " + Capitalized("showcase") + " " + Capitalized("tour") == "World Showcase Tour"
  {
    assert Capitalized("showcase") == "Showcase";
    assert Capitalized("tour") == "Tour";
    assert Capitalized("world") == "World";
    assert "World" + " " + "Showcase" == "World Showcase";
    assert "World Showcase" + " " + "Tour" == "World Showcase Tour";
  }

  lemma SpeakeasyTitle()
    ensures TemplateTitle("speakeasy-crawl") == "Speakeasy Crawl"
  {
    assert "speakeasy" + "-" + "crawl" == "speakeasy-crawl";
    TwoWordTitle("speakeasy", "crawl");
    SpeakeasyWords();
  }

  lemma SpeakeasyWords()
    ensures Capitalized("speakeasy") + " " + Capitalized("crawl") == "Speakeasy Crawl"
  {
    assert Capitalized("crawl") == "Crawl";
    assert Capitalized("speakeasy") == "Speakeasy";
    assert "Speakeasy" + " " + "Crawl" == "Speakeasy Crawl";
  }

  lemma ResortHopTitle()
    ensures TemplateTitle("resort-hop") == "Resort Hop"
  {
    assert "resort" + "-" + "hop" == "resort-hop";
    TwoWordTitle("resort", "hop");
    ResortHopWords();
  }

  lemma ResortHopWords()
    ensures Capitalized("resort") + " " + Capitalized("hop") == "Resort Hop"
  {
    assert Capitalized("hop") == "Hop";
    assert Capitalized("resort") == "Resort";
    assert "Resort" + " " + "Hop" == "Resort Hop";
  }

  lemma GalaxyTitle()
    ensures TemplateTitle("galaxy-to-galaxy") == "Galaxy To Galaxy"
  {
    assert "to" + "-" + "galaxy" == "to-galaxy";
    assert "galaxy" + "-" + "to-galaxy" == "galaxy-to-galaxy";
    ThreeWordTitle("galaxy", "to", "galaxy");
    GalaxyWords();
  }

  lemma GalaxyWords()
    ensures Capitalized("galaxy") + " " + Capitalized("to") + " " + Capitalized("galaxy") == "Galaxy To Galaxy"
  {
    assert Capitalized("galaxy") == "Galaxy";
    assert Capitalized("to") == "To";
    assert "Galaxy" + " " + "To" == "Galaxy To";
    assert "Galaxy To" + " " + "Galaxy" == "Galaxy To Galaxy";
  }

  function Capitalized(w: string): string
    requires w != []
  {
    [UpperChar(w[0])] + w[1..]
  }

  predicate AllLower(w: string) {
    forall i :: 0 <= i < |w| ==> 'a' <= w[i] <= 'z'
  }

  /** A lower-case word gets a capital first letter and nothing else changes. */
  lemma WordTitle(w: string)
    requires w != [] && AllLower(w)
    ensures TemplateTitle(w) == Capitalized(w)
  {
    assert ReplaceChar(w, '-', ' ') == w;
    LowerAfterWord(w[1..]);
  }

  /** Letters that follow a letter keep their case. */
  lemma {:induction false} LowerAfterWord(w: string)
    requires AllLower(w)
    ensures TitleWords(w, true) == w
  {
    if w != [] {
      LowerAfterWord(w[1..]);
    }
  }

  /** Hyphenated parts are titled one by one and joined by a space. */
  lemma HyphenTitle(a: string, b: string)
    ensures TemplateTitle(a + "-" + b) == TemplateTitle(a) + " " + TemplateTitle(b)
  {
    HyphenToSpace(a, b);
    SpaceTitle(ReplaceChar(a, '-', ' '), ReplaceChar(b, '-', ' '), false);
  }

  lemma HyphenToSpace(a: string, b: string)
    ensures ReplaceChar(a + "-" + b, '-', ' ') == ReplaceChar(a, '-', ' ') + " " + ReplaceChar(b, '-', ' ')
  {
  }

  lemma {:induction false} SpaceTitle(x: string, y: string, afterWord: bool)
    ensures TitleWords(x + " " + y, afterWord) == TitleWords(x, afterWord) + " " + TitleWords(y, false)
  {
    var s := x + " " + y;
    if x == [] {
      assert s == [' '] + y;
      assert s[1..] == y;
    } else {
      assert s[0] == x[0] && s[1..] == x[1..] + " " + y;
      SpaceTitle(x[1..], y, IsWordChar(x[0]));
    }
  }

  lemma TwoWordTitle(a: string, b: string)
    requires a != [] && AllLower(a) && b != [] && AllLower(b)
    ensures TemplateTitle(a + "-" + b) == Capitalized(a) + " " + Capitalized(b)
  {
    HyphenTitle(a, b);
    WordTitle(a);
    WordTitle(b);
  }

  lemma ThreeWordTitle(a: string, b: string, c: string)
    requires a != [] && AllLower(a) && b != [] && AllLower(b) && c != [] && AllLower(c)
    ensures TemplateTitle(a + "-" + (b + "-" + c))
            == Capitalized(a) + " " + Capitalized(b) + " " + Capitalized(c)
  {
    HyphenTitle(a, b + "-" + c);
    TwoWordTitle(b, c);
    WordTitle(a);
  }
}
